/** Shared vocabulary: the Python exceptions the scripts can raise, a Result type
    for operations that raise them, and counting/tallying over sequences of rows
    (the `+= 1` counters and the `defaultdict(int)` tallies of the scripts). */
module Common {

  /** The exceptions the modelled code raises. */
  datatype Error =
    | ValueError      // float() / int() / Decimal() on a malformed token
    | IndexError      // indexing past the end of a list or string
    | KeyError        // dict lookup of a missing key
    | AttributeError  // `.group()` on the None returned by a failed re.match
    | TypeError       // dict(None)
    | InvalidOperation // Decimal() on a malformed string
    | UnknownPath     // load_tsv's "Don't know what to do with this pathname"

  datatype Option<+T> = None | Some(value: T)

  datatype Result<+T> = Success(value: T) | Failure(error: Error) {
    predicate IsFailure() { Failure? }
    function PropagateFailure<U>(): Result<U>
      requires Failure?
    {
      Failure(error)
    }
    function Extract(): T
      requires Success?
    {
      value
    }
  }

  // ---------------------------------------------------------------------------
  // Counting

  /** Number of elements of `s` that satisfy `p`. */
  function Count<T>(s: seq<T>, p: T -> bool): nat
  {
    if s == [] then 0 else (if p(s[0]) then 1 else 0) + Count(s[1..], p)
  }

  lemma {:induction false} CountAppend<T>(s: seq<T>, x: T, p: T -> bool)
    ensures Count(s + [x], p) == Count(s, p) + (if p(x) then 1 else 0)
  {
    if s != [] {
      assert (s + [x])[1..] == s[1..] + [x];
      CountAppend(s[1..], x, p);
    }
  }

  lemma {:induction false} CountBound<T>(s: seq<T>, p: T -> bool)
    ensures Count(s, p) <= |s|
  {
    if s != [] { CountBound(s[1..], p); }
  }

  /** An element that satisfies `p` makes the count positive. */
  lemma {:induction false} CountPositive<T>(s: seq<T>, p: T -> bool, i: nat)
    requires i < |s| && p(s[i])
    ensures Count(s, p) >= 1
  {
    if i > 0 { CountPositive(s[1..], p, i - 1); }
  }

  /** No element satisfies `p` exactly when the count is zero. */
  lemma {:induction false} CountZero<T>(s: seq<T>, p: T -> bool)
    ensures Count(s, p) == 0 <==> forall i :: 0 <= i < |s| ==> !p(s[i])
  {
    if s != [] {
      CountZero(s[1..], p);
      assert forall i :: 1 <= i < |s| ==> s[i] == s[1..][i - 1];
    }
  }

  /** Three predicates that split every element into exactly one class split the length. */
  lemma {:induction false} CountPartition3<T>(s: seq<T>, p: T -> bool, q: T -> bool, r: T -> bool)
    requires forall i :: 0 <= i < |s| ==>
      (if p(s[i]) then 1 else 0) + (if q(s[i]) then 1 else 0) + (if r(s[i]) then 1 else 0) == 1
    ensures Count(s, p) + Count(s, q) + Count(s, r) == |s|
  {
    if s != [] {
      assert forall i :: 0 <= i < |s| - 1 ==> s[1..][i] == s[i + 1];
      CountPartition3(s[1..], p, q, r);
    }
  }

  /** Splitting the elements that satisfy `p` by a second predicate splits their count. */
  lemma {:induction false} CountSplit<T>(s: seq<T>, p: T -> bool, q: T -> bool, r: T -> bool)
    requires forall i :: 0 <= i < |s| ==>
      (p(s[i]) <==> (q(s[i]) || r(s[i]))) && !(q(s[i]) && r(s[i]))
    ensures Count(s, q) + Count(s, r) == Count(s, p)
  {
    if s != [] {
      assert forall i :: 0 <= i < |s| - 1 ==> s[1..][i] == s[i + 1];
      CountSplit(s[1..], p, q, r);
    }
  }

  /** Two predicates that disagree on every element split the length. */
  lemma {:induction false} CountComplement<T>(s: seq<T>, p: T -> bool, q: T -> bool)
    requires forall i :: 0 <= i < |s| ==> p(s[i]) != q(s[i])
    ensures Count(s, p) + Count(s, q) == |s|
  {
    if s != [] {
      assert forall i :: 0 <= i < |s| - 1 ==> s[1..][i] == s[i + 1];
      CountComplement(s[1..], p, q);
    }
  }

  /** A predicate implied by another counts at least as many elements. */
  lemma {:induction false} CountMono<T>(s: seq<T>, p: T -> bool, q: T -> bool)
    requires forall i :: 0 <= i < |s| ==> p(s[i]) ==> q(s[i])
    ensures Count(s, p) <= Count(s, q)
  {
    if s != [] {
      assert forall i :: 0 <= i < |s| - 1 ==> s[1..][i] == s[i + 1];
      CountMono(s[1..], p, q);
    }
  }

  // ---------------------------------------------------------------------------
  // Filtering (the `in_battery.append(r)` list)

  /** The elements of `s` that satisfy `p`, in their original order. */
  function Filter<T>(s: seq<T>, p: T -> bool): seq<T>
  {
    if s == [] then [] else (if p(s[0]) then [s[0]] else []) + Filter(s[1..], p)
  }

  lemma {:induction false} FilterAppend<T>(s: seq<T>, x: T, p: T -> bool)
    ensures Filter(s + [x], p) == Filter(s, p) + (if p(x) then [x] else [])
  {
    if s != [] {
      assert (s + [x])[1..] == s[1..] + [x];
      FilterAppend(s[1..], x, p);
    }
  }

  /** The filtered list is as long as the count, and holds exactly the elements that satisfy `p`. */
  lemma {:induction false} FilterCount<T>(s: seq<T>, p: T -> bool)
    ensures |Filter(s, p)| == Count(s, p)
    ensures forall x :: x in Filter(s, p) <==> x in s && p(x)
  {
    if s != [] {
      FilterCount(s[1..], p);
      assert s == [s[0]] + s[1..];
    }
  }

  // ---------------------------------------------------------------------------
  // Tallies: a `defaultdict(int)` bumped once per selected element

  /** `m[k] += 1` on a defaultdict(int). */
  function Bump<K>(m: map<K, nat>, k: K): (r: map<K, nat>)
    ensures r.Keys == m.Keys + {k}
    ensures r[k] == (if k in m then m[k] else 0) + 1
    ensures forall j :: j in m && j != k ==> r[j] == m[j]
  {
    m[k := (if k in m then m[k] else 0) + 1]
  }

  /** The number of selected elements whose key is `k`. */
  ghost function CountKey<T, K>(s: seq<T>, sel: T -> bool, key: T -> K, k: K): nat
  {
    Count(s, x => sel(x) && key(x) == k)
  }

  /** Reference definition of a tally: every key of a selected element, mapped to
      how many selected elements carry it. */
  ghost function Tally<T, K>(s: seq<T>, sel: T -> bool, key: T -> K): map<K, nat>
  {
    map k | k in (set i | 0 <= i < |s| && sel(s[i]) :: key(s[i])) :: CountKey(s, sel, key, k)
  }

  /** Bumping the tally of a prefix once for the next element gives the tally of the longer prefix. */
  lemma TallyAppend<T, K>(s: seq<T>, x: T, sel: T -> bool, key: T -> K)
    ensures Tally(s + [x], sel, key) == if sel(x) then Bump(Tally(s, sel, key), key(x)) else Tally(s, sel, key)
  {
    var t, t' := Tally(s, sel, key), Tally(s + [x], sel, key);
    forall k ensures CountKey(s + [x], sel, key, k) == CountKey(s, sel, key, k) + (if sel(x) && key(x) == k then 1 else 0) {
      CountAppend(s, x, y => sel(y) && key(y) == k);
    }
    var ks := set i | 0 <= i < |s| && sel(s[i]) :: key(s[i]);
    var ks' := set i | 0 <= i < |s + [x]| && sel((s + [x])[i]) :: key((s + [x])[i]);
    assert t.Keys == ks && t'.Keys == ks';
    if sel(x) {
      assert ks' == ks + {key(x)} by {
        forall k | k in ks' ensures k in ks + {key(x)} {
          var i :| 0 <= i < |s + [x]| && sel((s + [x])[i]) && key((s + [x])[i]) == k;
          if i < |s| { assert (s + [x])[i] == s[i]; }
        }
        forall k | k in ks ensures k in ks' {
          var i :| 0 <= i < |s| && sel(s[i]) && key(s[i]) == k;
          assert (s + [x])[i] == s[i];
        }
        assert (s + [x])[|s|] == x;
      }
      var b := Bump(t, key(x));
      assert b.Keys == t'.Keys;
      forall k | k in t' ensures t'[k] == b[k] {
        assert t'[k] == CountKey(s + [x], sel, key, k);
        if k in t {
          assert t[k] == CountKey(s, sel, key, k);
        } else {
          CountZero(s, y => sel(y) && key(y) == k);
        }
      }
    } else {
      assert ks' == ks by {
        forall k | k in ks' ensures k in ks {
          var i :| 0 <= i < |s + [x]| && sel((s + [x])[i]) && key((s + [x])[i]) == k;
          assert i < |s|;
          assert (s + [x])[i] == s[i];
        }
        forall k | k in ks ensures k in ks' {
          var i :| 0 <= i < |s| && sel(s[i]) && key(s[i]) == k;
          assert (s + [x])[i] == s[i];
        }
      }
      forall k | k in t' ensures t'[k] == t[k] {
        assert t'[k] == CountKey(s + [x], sel, key, k);
        assert t[k] == CountKey(s, sel, key, k);
      }
    }
  }

  /** Every key in a tally has a count of at least one. */
  lemma TallyPositive<T, K>(s: seq<T>, sel: T -> bool, key: T -> K)
    ensures forall k :: k in Tally(s, sel, key) ==> Tally(s, sel, key)[k] >= 1
  {
    forall k | k in Tally(s, sel, key) ensures Tally(s, sel, key)[k] >= 1 {
      var i :| 0 <= i < |s| && sel(s[i]) && key(s[i]) == k;
      CountPositive(s, y => sel(y) && key(y) == k, i);
    }
  }

  /** Sum of the values of a map. */
  ghost function MapSum<K>(m: map<K, nat>): nat
    decreases |m|
  {
    if m == map[] then 0
    else
      var k :| k in m;
      m[k] + MapSum(m - {k})
  }

  /** The sum does not depend on which key is taken out first. */
  lemma {:induction false} MapSumRemove<K>(m: map<K, nat>, k: K)
    requires k in m
    ensures MapSum(m) == m[k] + MapSum(m - {k})
    decreases |m|
  {
    var j :| j in m && MapSum(m) == m[j] + MapSum(m - {j});
    if j != k {
      var mj, mk := m - {j}, m - {k};
      assert k in mj && j in mk;
      assert |mj| < |m| by { assert mj.Keys < m.Keys; }
      assert |mk| < |m| by { assert mk.Keys < m.Keys; }
      MapSumRemove(mj, k);
      MapSumRemove(mk, j);
      assert mj - {k} == mk - {j};
    }
  }

  lemma BumpSum<K>(m: map<K, nat>, k: K)
    ensures MapSum(Bump(m, k)) == MapSum(m) + 1
  {
    var b := Bump(m, k);
    MapSumRemove(b, k);
    if k in m {
      MapSumRemove(m, k);
      assert b - {k} == m - {k};
    } else {
      assert b - {k} == m;
    }
  }

  /** The values of a tally add up to the number of selected elements. */
  lemma {:induction false} TallySum<T, K>(s: seq<T>, sel: T -> bool, key: T -> K)
    ensures MapSum(Tally(s, sel, key)) == Count(s, sel)
    decreases |s|
  {
    if s == [] {
      assert Tally(s, sel, key) == map[];
    } else {
      var init, x := s[..|s| - 1], s[|s| - 1];
      assert s == init + [x];
      TallySum(init, sel, key);
      TallyAppend(init, x, sel, key);
      CountAppend(init, x, sel);
      if sel(x) { BumpSum(Tally(init, sel, key), key(x)); }
    }
  }
}
