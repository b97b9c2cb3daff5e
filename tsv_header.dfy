/** The part of `load_tsv` that is the scripts' own logic: choosing how to open a
    file from its name, and turning the first line of the file into the column
    names handed to the TSV reader (utils.py), plus the simpler header handling of
    the copy in find_parking_meters.py. */
module TsvHeader {
  import opened Common
  import opened Text

  /** The two ways `load_tsv` opens a file. */
  datatype OpenMode = Gzip | Plain

  /** The suffix dispatch: gzip for ".tsv.gz", plain text for ".tsv", compared on the
      lower-cased name, gzip tested first; any other name raises. */
  function OpenModeOf(fname: string): (r: Result<OpenMode>)
    ensures r == Success(Gzip) <==> EndsWith(Lower(fname), ".tsv.gz")
    ensures r == Success(Plain) <==> EndsWith(Lower(fname), ".tsv")
    ensures r.Failure? <==> !EndsWith(Lower(fname), ".tsv.gz") && !EndsWith(Lower(fname), ".tsv")
    ensures r.Failure? ==> r.error == UnknownPath
  {
    var name := Lower(fname);
    GzipIsNotPlain(name);
    if EndsWith(name, ".tsv.gz") then Success(Gzip)
    else if EndsWith(name, ".tsv") then Success(Plain)
    else Failure(UnknownPath)
  }

  /** A name ending in ".tsv.gz" does not end in ".tsv", so the two suffix tests
      never both succeed. */
  lemma GzipIsNotPlain(s: string)
    ensures !(EndsWith(s, ".tsv.gz") && EndsWith(s, ".tsv"))
  {
    if EndsWith(s, ".tsv.gz") {
      assert s[|s| - 7..][6] == 'z';
      assert s[|s| - 4..][3] != 'v';
    }
  }

  lemma LowerIdempotent(s: string)
    ensures Lower(Lower(s)) == Lower(s)
  {
  }

  /** The dispatch ignores letter case: a name and its lower-cased form open the same way. */
  lemma OpenModeIgnoresCase(fname: string)
    ensures OpenModeOf(fname) == OpenModeOf(Lower(fname))
  {
    LowerIdempotent(fname);
  }

  /** Length of the longest prefix of `line` made of characters with code 128 or more
      (a byte-order mark and anything like it). */
  function BomLen(line: string): (n: nat)
    ensures n <= |line|
    ensures forall i :: 0 <= i < n ==> line[i] as int >= 128
    ensures n < |line| ==> line[n] as int < 128
  {
    if line == [] || line[0] as int < 128 then 0 else 1 + BomLen(line[1..])
  }

  /** Reference definition of the header parse: the line without its prefix of
      non-ASCII characters, split on tabs; IndexError when the whole line is such a
      prefix, because the scan then indexes one past the end. */
  function HeaderSpec(line: string): Result<seq<string>>
  {
    var p := BomLen(line);
    if p == |line| then Failure(IndexError) else Success(Split(line[p..], '\t'))
  }

  /** The header loop: advance `p` while the character at `p` has code 128 or more,
      then split the rest of the line on tab characters. */
  method HeaderFields(line: string) returns (r: Result<seq<string>>)
    ensures r == HeaderSpec(line)
  {
    var p := 0;
    while p < |line| && line[p] as int >= 128
      invariant p <= |line|
      invariant p + BomLen(line[p..]) == BomLen(line)
    {
      assert line[p..][1..] == line[p + 1..];
      p := p + 1;
    }
    if p == |line| {
      return Failure(IndexError);
    }
    r := Success(Split(line[p..], '\t'));
  }

  /** The parse fails exactly when no character of the line is below 128, which
      includes the empty line of an empty file. */
  lemma HeaderFailsIff(line: string)
    ensures HeaderSpec(line).Failure? <==> forall i :: 0 <= i < |line| ==> line[i] as int >= 128
    ensures HeaderSpec(line).Failure? ==> HeaderSpec(line).error == IndexError
  {
  }

  /** The fields are the tab-separated pieces of a suffix of the line: joined with
      tabs they give back exactly the line after the skipped prefix, and none of
      them holds a tab. */
  lemma HeaderFieldsFromSuffix(line: string)
    requires HeaderSpec(line).Success?
    ensures var fields := HeaderSpec(line).value;
      && Join(fields, '\t') == line[BomLen(line)..]
      && forall i, j :: 0 <= i < |fields| && 0 <= j < |fields[i]| ==> fields[i][j] != '\t'
  {
    JoinSplit(line[BomLen(line)..], '\t');
  }

  /** The line's final newline is not stripped: it stays at the end of the last field. */
  lemma HeaderKeepsNewline(line: string)
    requires HeaderSpec(line).Success?
    requires |line| > 0 && line[|line| - 1] == '\n'
    ensures var fields := HeaderSpec(line).value;
      var last := fields[|fields| - 1];
      |last| > 0 && last[|last| - 1] == '\n'
  {
    var rest := line[BomLen(line)..];
    assert rest[|rest| - 1] == '\n';
    SplitLastKeepsEnd(rest, '\t');
  }

  /** The copy in find_parking_meters.py: drop the first character, whatever it is,
      and split the rest on tabs. An empty line gives one empty field. */
  function DropFirstFields(line: string): (r: seq<string>)
    ensures |r| >= 1
  {
    Split(if line == [] then [] else line[1..], '\t')
  }

  /** That copy always loses exactly one character of a non-empty line: the fields
      joined with tabs are the line without its first character. */
  lemma DropFirstFieldsJoin(line: string)
    ensures Join(DropFirstFields(line), '\t') == if line == [] then [] else line[1..]
  {
    JoinSplit(if line == [] then [] else line[1..], '\t');
  }

  /** The two copies agree on a line that starts with exactly one non-ASCII character
      (a single byte-order mark) followed by an ASCII character. */
  lemma CopiesAgreeOnSingleMark(line: string)
    requires |line| >= 2 && line[0] as int >= 128 && line[1] as int < 128
    ensures HeaderSpec(line) == Success(DropFirstFields(line))
  {
    assert line[1..][0] == line[1];
  }

  /** On a line with no mark the copy in find_parking_meters.py cuts off the first
      character of the first column name, where the loop in utils.py keeps it. */
  lemma CopiesDifferWithoutMark(line: string)
    requires |line| >= 1 && line[0] as int < 128
    ensures HeaderSpec(line) == Success(Split(line, '\t'))
    ensures Join(DropFirstFields(line), '\t') == line[1..]
  {
    assert line[0..] == line;
    DropFirstFieldsJoin(line);
  }
}
