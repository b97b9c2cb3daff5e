/** `print_cap_dict` (utils.py): print an optional heading, then one line per key of
    a count dictionary in ascending order of the key's display label, leaving out the
    skipped keys, then the total of the printed counts. The printed lines are
    returned instead of written to stdout. The dictionary is a sequence of
    (key, count) pairs in insertion order. */
module CapReport {
  import opened Common

  // ---------------------------------------------------------------------------
  // Python's ordering of strings

  /** `a <= b` on Python strings: lexicographic by code point, a prefix first. */
  predicate StrLe(a: string, b: string)
    decreases |a|
  {
    a == [] || (b != [] && (a[0] < b[0] || (a[0] == b[0] && StrLe(a[1..], b[1..]))))
  }

  lemma {:induction false} StrLeRefl(a: string)
    ensures StrLe(a, a)
    decreases |a|
  {
    if a != [] { StrLeRefl(a[1..]); }
  }

  lemma {:induction false} StrLeTotal(a: string, b: string)
    ensures StrLe(a, b) || StrLe(b, a)
    decreases |a|
  {
    if a != [] && b != [] && a[0] == b[0] { StrLeTotal(a[1..], b[1..]); }
  }

  lemma {:induction false} StrLeTrans(a: string, b: string, c: string)
    requires StrLe(a, b) && StrLe(b, c)
    ensures StrLe(a, c)
    decreases |a|
  {
    if a != [] && b != [] && c != [] && a[0] == b[0] == c[0] {
      StrLeTrans(a[1..], b[1..], c[1..]);
    }
  }

  lemma {:induction false} StrLeAntisym(a: string, b: string)
    requires StrLe(a, b) && StrLe(b, a)
    ensures a == b
    decreases |a|
  {
    if a != [] {
      StrLeAntisym(a[1..], b[1..]);
      assert a == [a[0]] + a[1..] && b == [b[0]] + b[1..];
    }
  }

  // ---------------------------------------------------------------------------
  // Labels and sorting

  /** A key of the dictionary with its count and the label it is sorted and printed by. */
  datatype Row = Row(shown: string, key: string, count: int)

  /** The sort key `key_subst[x] if key_subst else x`: an empty (or absent)
      substitution means the key itself; a present one must hold the key. */
  function LabelOf(k: string, keySubst: map<string, string>): (r: Result<string>)
    ensures r.Failure? <==> |keySubst| > 0 && k !in keySubst
    ensures r.Failure? ==> r.error == KeyError
    ensures r.Success? ==> r.value == if |keySubst| == 0 then k else keySubst[k]
  {
    if |keySubst| == 0 then Success(k)
    else if k in keySubst then Success(keySubst[k])
    else Failure(KeyError)
  }

  /** Every key with its label, in dictionary order; KeyError when a substitution is
      given and misses a key. */
  function Labelled(d: seq<(string, int)>, keySubst: map<string, string>): (r: Result<seq<Row>>)
    ensures r.Failure? <==> |keySubst| > 0 && exists i :: 0 <= i < |d| && d[i].0 !in keySubst
    ensures r.Failure? ==> r.error == KeyError
    ensures r.Success? ==> |r.value| == |d|
    ensures r.Success? ==> forall i :: 0 <= i < |d| ==>
      r.value[i] == Row(LabelOf(d[i].0, keySubst).value, d[i].0, d[i].1)
  {
    if d == [] then Success([])
    else
      var first := LabelOf(d[0].0, keySubst);
      if first.Failure? then Failure(KeyError)
      else
        var rest := Labelled(d[1..], keySubst);
        assert forall i :: 1 <= i < |d| ==> d[i] == d[1..][i - 1];
        if rest.Failure? then Failure(KeyError)
        else Success([Row(first.value, d[0].0, d[0].1)] + rest.value)
  }

  predicate SortedByLabel(s: seq<Row>)
  {
    forall i, j :: 0 <= i < j < |s| ==> StrLe(s[i].shown, s[j].shown)
  }

  /** Insert `x` before the first row whose label is not below it. */
  function Insert(x: Row, s: seq<Row>): (r: seq<Row>)
    ensures multiset(r) == multiset(s) + multiset{x}
  {
    if s == [] || StrLe(x.shown, s[0].shown) then [x] + s
    else
      assert s == [s[0]] + s[1..];
      [s[0]] + Insert(x, s[1..])
  }

  lemma {:induction false} InsertSorted(x: Row, s: seq<Row>)
    requires SortedByLabel(s)
    ensures SortedByLabel(Insert(x, s))
  {
    if s == [] || StrLe(x.shown, s[0].shown) {
      forall j | 1 <= j < |s| + 1 ensures StrLe(x.shown, ([x] + s)[j].shown) {
        if j > 1 { StrLeTrans(x.shown, s[0].shown, s[j - 1].shown); }
      }
    } else {
      var rest := Insert(x, s[1..]);
      InsertSorted(x, s[1..]);
      StrLeTotal(x.shown, s[0].shown);
      forall j | 0 <= j < |rest| ensures StrLe(s[0].shown, rest[j].shown) {
        assert rest[j] in multiset(s[1..]) + multiset{x};
        if rest[j] != x {
          assert rest[j] in s[1..];
          var k :| 0 <= k < |s[1..]| && s[1..][k] == rest[j];
          assert s[k + 1] == rest[j];
        }
      }
    }
  }

  /** `sorted(keys, key=label)`: insertion sort by label. */
  function SortRows(s: seq<Row>): (r: seq<Row>)
    ensures multiset(r) == multiset(s)
  {
    if s == [] then []
    else
      assert s == [s[0]] + s[1..];
      Insert(s[0], SortRows(s[1..]))
  }

  /** The sort orders the rows by label and is a permutation of them. */
  lemma {:induction false} SortRowsSorted(s: seq<Row>)
    ensures SortedByLabel(SortRows(s))
    ensures multiset(SortRows(s)) == multiset(s)
  {
    if s != [] {
      SortRowsSorted(s[1..]);
      InsertSorted(s[0], SortRows(s[1..]));
    }
  }

  // ---------------------------------------------------------------------------
  // The printed report

  datatype Line =
    | Heading(text: string)            // `print(label)`
    | Entry(shown: string, count: int) // `f"{label}\t{d[k]}"`
    | Total(sum: int)                  // `f"Total: {tot}"`

  /** The entry lines of the rows not skipped, in order. */
  function EntryLines(rows: seq<Row>, skip: set<string>): seq<Line>
  {
    if rows == [] then []
    else (if rows[0].key in skip then [] else [Entry(rows[0].shown, rows[0].count)]) + EntryLines(rows[1..], skip)
  }

  /** The sum of the counts of the rows not skipped. */
  function SumRows(rows: seq<Row>, skip: set<string>): int
  {
    if rows == [] then 0
    else (if rows[0].key in skip then 0 else rows[0].count) + SumRows(rows[1..], skip)
  }

  lemma {:induction false} EntryLinesAppend(rows: seq<Row>, x: Row, skip: set<string>)
    ensures EntryLines(rows + [x], skip) ==
      EntryLines(rows, skip) + (if x.key in skip then [] else [Entry(x.shown, x.count)])
  {
    if rows != [] {
      assert (rows + [x])[1..] == rows[1..] + [x];
      EntryLinesAppend(rows[1..], x, skip);
    }
  }

  lemma {:induction false} SumRowsAppend(rows: seq<Row>, x: Row, skip: set<string>)
    ensures SumRows(rows + [x], skip) == SumRows(rows, skip) + (if x.key in skip then 0 else x.count)
  {
    if rows != [] {
      assert (rows + [x])[1..] == rows[1..] + [x];
      SumRowsAppend(rows[1..], x, skip);
    }
  }

  /** The heading line, printed when the label is given and not empty. */
  function HeadingLines(heading: Option<string>): seq<Line>
  {
    if heading.Some? && heading.value != "" then [Heading(heading.value)] else []
  }

  /** Reference definition of the report: heading, the entries of the sorted rows
      that are not skipped, and the total of their counts. */
  function CapReportSpec(d: seq<(string, int)>, heading: Option<string>, keySubst: map<string, string>,
                         skip: set<string>): Result<seq<Line>>
  {
    match Labelled(d, keySubst)
    case Failure(e) => Failure(e)
    case Success(rows) =>
      var sorted := SortRows(rows);
      Success(HeadingLines(heading) + EntryLines(sorted, skip) + [Total(SumRows(sorted, skip))])
  }

  /** The printing loop: walk the sorted rows, print and add up the ones whose key is
      not skipped. */
  method PrintEntries(rows: seq<Row>, skip: set<string>) returns (lines: seq<Line>, tot: int)
    ensures lines == EntryLines(rows, skip)
    ensures tot == SumRows(rows, skip)
  {
    tot := 0;
    lines := [];
    for i := 0 to |rows|
      invariant lines == EntryLines(rows[..i], skip)
      invariant tot == SumRows(rows[..i], skip)
    {
      var row := rows[i];
      assert rows[..i + 1] == rows[..i] + [row];
      EntryLinesAppend(rows[..i], row, skip);
      SumRowsAppend(rows[..i], row, skip);
      if row.key !in skip {
        lines := lines + [Entry(row.shown, row.count)];
        tot := tot + row.count;
      }
    }
    assert rows[..|rows|] == rows;
  }

  /** `print_cap_dict`: the heading, then the sorted keys, then the total. An absent
      `skip_keys` is the empty set (the test `not skip_keys or k not in skip_keys`
      then keeps every key). */
  method PrintCapDict(d: seq<(string, int)>, heading: Option<string>, keySubst: map<string, string>,
                      skip: set<string>) returns (r: Result<seq<Line>>)
    ensures r == CapReportSpec(d, heading, keySubst, skip)
  {
    var head := HeadingLines(heading);
    var labelled := Labelled(d, keySubst);
    if labelled.Failure? {
      return Failure(KeyError);
    }
    var rows := SortRows(labelled.value);
    var lines, tot := PrintEntries(rows, skip);
    r := Success(head + lines + [Total(tot)]);
  }

  // ---------------------------------------------------------------------------
  // What the report promises

  /** The sum of the counts of `d` whose key is not skipped, in dictionary order. */
  function SumUnskipped(d: seq<(string, int)>, skip: set<string>): int
  {
    if d == [] then 0 else (if d[0].0 in skip then 0 else d[0].1) + SumUnskipped(d[1..], skip)
  }

  /** Sum of all counts. */
  function SumAll(d: seq<(string, int)>): int
  {
    if d == [] then 0 else d[0].1 + SumAll(d[1..])
  }

  lemma {:induction false} SumUnskippedNone(d: seq<(string, int)>)
    ensures SumUnskipped(d, {}) == SumAll(d)
  {
    if d != [] { SumUnskippedNone(d[1..]); }
  }

  lemma {:induction false} SumLabelled(d: seq<(string, int)>, rows: seq<Row>, skip: set<string>)
    requires |rows| == |d|
    requires forall i :: 0 <= i < |d| ==> rows[i].key == d[i].0 && rows[i].count == d[i].1
    ensures SumRows(rows, skip) == SumUnskipped(d, skip)
  {
    if d != [] {
      SumLabelled(d[1..], rows[1..], skip);
    }
  }

  /** Taking out the row at `j` takes its contribution out of the sum. */
  lemma {:induction false} SumRowsRemove(s: seq<Row>, j: nat, skip: set<string>)
    requires j < |s|
    ensures SumRows(s, skip) == (if s[j].key in skip then 0 else s[j].count) + SumRows(s[..j] + s[j + 1..], skip)
  {
    if j > 0 {
      SumRowsRemove(s[1..], j - 1, skip);
      assert s[1..][..j - 1] + s[1..][j..] == (s[..j] + s[j + 1..])[1..];
    } else {
      assert s[..0] + s[1..] == s[1..];
    }
  }

  /** The first element of a non-empty sequence sits at some index `j` of any
      permutation of it; the rest of the one is a permutation of the other without `j`. */
  lemma PermHead<T>(a: seq<T>, b: seq<T>) returns (j: nat)
    requires a != [] && multiset(a) == multiset(b)
    ensures j < |b| && b[j] == a[0] && multiset(a[1..]) == multiset(b[..j] + b[j + 1..])
  {
    var x := a[0];
    assert x in multiset(b);
    j :| 0 <= j < |b| && b[j] == x;
    assert b == b[..j] + [x] + b[j + 1..];
    assert multiset(b[..j] + b[j + 1..]) == multiset(b) - multiset{x};
    assert a == [x] + a[1..];
    assert multiset(a[1..]) == multiset(a) - multiset{x};
  }

  /** The sum does not depend on the order of the rows. */
  lemma {:induction false} SumRowsPerm(a: seq<Row>, b: seq<Row>, skip: set<string>)
    requires multiset(a) == multiset(b)
    ensures SumRows(a, skip) == SumRows(b, skip)
    decreases |a|
  {
    if a == [] {
      assert |b| == |multiset(b)| == 0;
    } else {
      var j := PermHead(a, b);
      var rest := b[..j] + b[j + 1..];
      SumRowsPerm(a[1..], rest, skip);
      SumRowsRemove(b, j, skip);
    }
  }

  /** The total printed is the sum of the counts of the keys not skipped, whatever
      the order of printing; with nothing skipped it is the sum of all counts. */
  lemma CapReportTotal(d: seq<(string, int)>, heading: Option<string>, keySubst: map<string, string>,
                       skip: set<string>)
    requires CapReportSpec(d, heading, keySubst, skip).Success?
    ensures var lines := CapReportSpec(d, heading, keySubst, skip).value;
      lines[|lines| - 1] == Total(SumUnskipped(d, skip))
    ensures skip == {} ==>
      var lines := CapReportSpec(d, heading, keySubst, skip).value;
      lines[|lines| - 1] == Total(SumAll(d))
  {
    var rows := Labelled(d, keySubst).value;
    SortRowsSorted(rows);
    SumRowsPerm(SortRows(rows), rows, skip);
    SumLabelled(d, rows, skip);
    SumUnskippedNone(d);
  }

  /** The report fails exactly when a substitution is given that misses a key. */
  lemma CapReportFails(d: seq<(string, int)>, heading: Option<string>, keySubst: map<string, string>,
                       skip: set<string>)
    ensures CapReportSpec(d, heading, keySubst, skip).Failure? <==>
      |keySubst| > 0 && exists i :: 0 <= i < |d| && d[i].0 !in keySubst
    ensures CapReportSpec(d, heading, keySubst, skip).Failure? ==>
      CapReportSpec(d, heading, keySubst, skip).error == KeyError
  {
  }

  /** Every line is an entry whose label is at least `lo`. */
  predicate EntriesAbove(es: seq<Line>, lo: string)
  {
    forall j :: 0 <= j < |es| ==> es[j].Entry? && StrLe(lo, es[j].shown)
  }

  /** Every line is an entry, in ascending order of label. */
  predicate EntriesSorted(es: seq<Line>)
  {
    forall i, j :: 0 <= i < j < |es| ==> es[i].Entry? && es[j].Entry? && StrLe(es[i].shown, es[j].shown)
  }

  /** Entry lines of rows whose labels are all at least `lo` are entries with labels at least `lo`. */
  lemma {:induction false} EntryLinesAbove(rows: seq<Row>, skip: set<string>, lo: string)
    requires forall i :: 0 <= i < |rows| ==> StrLe(lo, rows[i].shown)
    ensures EntriesAbove(EntryLines(rows, skip), lo)
  {
    if rows != [] {
      assert forall i :: 0 <= i < |rows| - 1 ==> rows[1..][i] == rows[i + 1];
      EntryLinesAbove(rows[1..], skip, lo);
      var head := if rows[0].key in skip then [] else [Entry(rows[0].shown, rows[0].count)];
      var rest := EntryLines(rows[1..], skip);
      assert forall j :: |head| <= j < |head| + |rest| ==> (head + rest)[j] == rest[j - |head|];
    }
  }

  /** The entry lines of sorted rows come in ascending order of label. */
  lemma {:induction false} EntryLinesSorted(rows: seq<Row>, skip: set<string>)
    requires SortedByLabel(rows)
    ensures EntriesSorted(EntryLines(rows, skip))
  {
    if rows != [] {
      var tail := rows[1..];
      assert forall i :: 0 <= i < |tail| ==> tail[i] == rows[i + 1];
      EntryLinesSorted(tail, skip);
      EntryLinesAbove(tail, skip, rows[0].shown);
      var head := if rows[0].key in skip then [] else [Entry(rows[0].shown, rows[0].count)];
      var rest := EntryLines(tail, skip);
      var es := head + rest;
      forall i, j | 0 <= i < j < |es| ensures es[i].Entry? && es[j].Entry? && StrLe(es[i].shown, es[j].shown) {
        assert es[j] == rest[j - |head|];
        if i >= |head| { assert es[i] == rest[i - |head|]; }
      }
    }
  }

  /** The report is the heading (if any), then entry lines in ascending order of
      label, then the total. */
  lemma CapReportOrdered(d: seq<(string, int)>, heading: Option<string>, keySubst: map<string, string>,
                         skip: set<string>)
    requires CapReportSpec(d, heading, keySubst, skip).Success?
    ensures var lines := CapReportSpec(d, heading, keySubst, skip).value;
      var h := |HeadingLines(heading)|;
      && |lines| >= h + 1
      && lines[..h] == HeadingLines(heading)
      && lines[|lines| - 1].Total?
      && EntriesSorted(lines[h..|lines| - 1])
  {
    var rows := Labelled(d, keySubst).value;
    var sorted := SortRows(rows);
    SortRowsSorted(rows);
    EntryLinesSorted(sorted, skip);
    var lines := CapReportSpec(d, heading, keySubst, skip).value;
    var h := |HeadingLines(heading)|;
    var es := EntryLines(sorted, skip);
    assert lines == HeadingLines(heading) + es + [Total(SumRows(sorted, skip))];
    assert lines[h..|lines| - 1] == es;
  }

  /** At most one row per key: the keys of a dictionary are distinct. */
  predicate DistinctKeys(d: seq<(string, int)>)
  {
    forall i, j :: 0 <= i < j < |d| ==> d[i].0 != d[j].0
  }

  /** How many rows carry the key `k`. */
  function RowsWithKey(rows: seq<Row>, k: string): nat
  {
    if rows == [] then 0 else (if rows[0].key == k then 1 else 0) + RowsWithKey(rows[1..], k)
  }

  lemma {:induction false} RowsWithKeyPerm(a: seq<Row>, b: seq<Row>, k: string)
    requires multiset(a) == multiset(b)
    ensures RowsWithKey(a, k) == RowsWithKey(b, k)
    decreases |a|
  {
    if a == [] {
      assert |b| == |multiset(b)| == 0;
    } else {
      var j := PermHead(a, b);
      var rest := b[..j] + b[j + 1..];
      RowsWithKeyPerm(a[1..], rest, k);
      RowsWithKeyRemove(b, j, k);
    }
  }

  lemma {:induction false} RowsWithKeyRemove(s: seq<Row>, j: nat, k: string)
    requires j < |s|
    ensures RowsWithKey(s, k) == (if s[j].key == k then 1 else 0) + RowsWithKey(s[..j] + s[j + 1..], k)
  {
    if j > 0 {
      RowsWithKeyRemove(s[1..], j - 1, k);
      assert s[1..][..j - 1] + s[1..][j..] == (s[..j] + s[j + 1..])[1..];
    } else {
      assert s[..0] + s[1..] == s[1..];
    }
  }

  /** The labelled rows of a dictionary carry each of its keys exactly once. */
  lemma {:induction false} LabelledKeysOnce(d: seq<(string, int)>, rows: seq<Row>, k: string)
    requires DistinctKeys(d)
    requires |rows| == |d|
    requires forall i :: 0 <= i < |d| ==> rows[i].key == d[i].0
    ensures RowsWithKey(rows, k) == if exists i :: 0 <= i < |d| && d[i].0 == k then 1 else 0
  {
    if d != [] {
      LabelledKeysOnce(d[1..], rows[1..], k);
      if d[0].0 == k {
        assert !exists i :: 0 <= i < |d[1..]| && d[1..][i].0 == k by {
          forall i | 0 <= i < |d[1..]| ensures d[1..][i].0 != k {
            assert d[1..][i] == d[i + 1];
          }
        }
      } else {
        if exists i :: 0 <= i < |d| && d[i].0 == k {
          var i :| 0 <= i < |d| && d[i].0 == k;
          assert d[1..][i - 1] == d[i];
        }
      }
    }
  }

  /** Each key of the dictionary is printed from exactly one sorted row: the sorted
      rows hold every key once and no other key. */
  lemma CapReportKeysOnce(d: seq<(string, int)>, keySubst: map<string, string>, k: string)
    requires DistinctKeys(d)
    requires Labelled(d, keySubst).Success?
    ensures RowsWithKey(SortRows(Labelled(d, keySubst).value), k) ==
      if exists i :: 0 <= i < |d| && d[i].0 == k then 1 else 0
  {
    var rows := Labelled(d, keySubst).value;
    LabelledKeysOnce(d, rows, k);
    RowsWithKeyPerm(SortRows(rows), rows, k);
  }

  /** Without a substitution every row is labelled by its own key. */
  lemma IdentityLabels(d: seq<(string, int)>)
    ensures Labelled(d, map[]).Success?
    ensures forall i :: 0 <= i < |d| ==> Labelled(d, map[]).value[i].shown == d[i].0
  {
  }
}
