/**
 * The three configuration-table loaders of GISTEMP's read_config.py.
 *
 * A file is given as the token lists `line.split()` makes of its lines, and
 * the files the loaders open are given as a map from path to file; a path
 * missing from the map is a file `open()` cannot open. Every loader builds
 * its dictionary in one pass and stops at the first error, which propagates
 * unchanged (no partial dictionary is returned).
 */
module ReadConfig {
  import opened Outcomes
  import opened PyText
  import opened Dicts

  /** The whitespace-separated fields of one line. */
  type Line = seq<string>

  /** The files that can be opened, by path. */
  type Files = map<string, seq<Line>>

  datatype LoadError =
    | FileNotFound(path: string)        // IOError from open()
    | Unpack(expected: nat, found: nat) // ValueError: wrong number of values to unpack
    | NotAnInt(text: string)            // ValueError from int()
    | NotAFloat(text: string)           // ValueError from float()
    | NoFields                          // IndexError: split_line[0] of a blank line

  /** `int(text)`. */
  function Int(text: string): Result<int, LoadError>
  {
    match ParseInt(text)
    case Some(n) => Ok(n)
    case None => Err(NotAnInt(text))
  }

  // ---------------------------------------------------------------------
  // v2_get_sources

  /** The station tables, in the order they are read. */
  const Sources: seq<string> := ["MCDW", "USHCN2", "SUMOFDAY"]

  /** `'input/%s.tbl' % source.lower()`. */
  function TablePath(source: string): string
  {
    "input/" + Lower(source) + ".tbl"
  }

  lemma TablePaths()
    ensures TablePath(Sources[0]) == "input/mcdw.tbl"
    ensures TablePath(Sources[1]) == "input/ushcn2.tbl"
    ensures TablePath(Sources[2]) == "input/sumofday.tbl"
  {
    assert Lower("MCDW") == "mcdw";
    assert Lower("USHCN2") == "ushcn2";
    assert Lower("SUMOFDAY") == "sumofday";
  }

  /** The 12-character record identifier of a table line: `id11 + duplicate`. */
  function StationId(line: Line): string
    requires |line| == 3
  {
    line[1] + line[2]
  }

  /** One table line: `_, id11, duplicate = line.split()`, giving `sources[id11 + duplicate] = source`. */
  function SourceEntry(source: string, line: Line): Result<(string, string), LoadError>
  {
    if |line| != 3 then Err(Unpack(3, |line|)) else Ok((StationId(line), source))
  }

  function SourceParser(source: string): Line -> Result<(string, string), LoadError>
  {
    line => SourceEntry(source, line)
  }

  /** The assignments made by the first `k` tables, in order, or the first error. */
  function SourceAssignments(files: Files, k: nat): Result<seq<(string, string)>, LoadError>
    requires k <= |Sources|
  {
    if k == 0 then Ok([])
    else
      match SourceAssignments(files, k - 1)
      case Err(e) => Err(e)
      case Ok(done) =>
        var path := TablePath(Sources[k - 1]);
        if path !in files then Err(FileNotFound(path))
        else
          match MapAll(files[path], SourceParser(Sources[k - 1]))
          case Err(e) => Err(e)
          case Ok(es) => Ok(done + es)
  }

  /** What `v2_get_sources()` returns, or the error it raises. */
  function SourceMap(files: Files): Result<map<string, string>, LoadError>
  {
    match SourceAssignments(files, |Sources|)
    case Err(e) => Err(e)
    case Ok(es) => Ok(Assign(es))
  }

  lemma {:induction false} SourceErrorSticks(files: Files, k: nat)
    requires k <= |Sources| && SourceAssignments(files, k).Err?
    ensures SourceAssignments(files, |Sources|) == SourceAssignments(files, k)
    decreases |Sources| - k
  {
    if k < |Sources| {
      SourceErrorSticks(files, k + 1);
    }
  }

  /** `v2_get_sources()`: reads the three tables in order into one dictionary. */
  method V2GetSources(files: Files) returns (r: Result<map<string, string>, LoadError>)
    ensures r == SourceMap(files)
  {
    var sources: map<string, string> := map[];
    ghost var done: seq<(string, string)> := [];
    for k := 0 to |Sources|
      invariant SourceAssignments(files, k) == Ok(done)
      invariant sources == Assign(done)
    {
      var source := Sources[k];
      var path := TablePath(source);
      if path !in files {
        SourceErrorSticks(files, k + 1);
        return Err(FileNotFound(path));
      }
      var lines := files[path];
      ghost var made: seq<(string, string)> := [];
      assert done + made == done;
      for i := 0 to |lines|
        invariant MapAll(lines[..i], SourceParser(source)) == Ok(made)
        invariant sources == Assign(done + made)
      {
        var line := lines[i];
        if |line| != 3 {
          SourceLineError(files, k, lines, i);
          return Err(Unpack(3, |line|));
        }
        var entry := (line[1] + line[2], source);
        SourceLineOk(source, lines, i, made);
        AssignSnoc(done + made, entry);
        assert done + made + [entry] == done + (made + [entry]);
        sources := sources[entry.0 := entry.1];
        made := made + [entry];
      }
      SourceTableDone(files, k, done, made);
      done := done + made;
    }
    return Ok(sources);
  }

  /** A table read to its end extends the assignments of the tables before it. */
  lemma SourceTableDone(files: Files, k: nat, done: seq<(string, string)>, made: seq<(string, string)>)
    requires k < |Sources| && SourceAssignments(files, k) == Ok(done)
    requires TablePath(Sources[k]) in files
    requires var lines := files[TablePath(Sources[k])]; MapAll(lines[..|lines|], SourceParser(Sources[k])) == Ok(made)
    ensures SourceAssignments(files, k + 1) == Ok(done + made)
  {
    var lines := files[TablePath(Sources[k])];
    assert lines[..|lines|] == lines;
  }

  /** A line with three fields extends the table's assignments by its own. */
  lemma SourceLineOk(source: string, lines: seq<Line>, i: nat, made: seq<(string, string)>)
    requires i < |lines| && |lines[i]| == 3 && MapAll(lines[..i], SourceParser(source)) == Ok(made)
    ensures MapAll(lines[..i + 1], SourceParser(source)) == Ok(made + [(lines[i][1] + lines[i][2], source)])
  {
    MapAllSnoc(lines[..i], lines[i], SourceParser(source));
    assert lines[..i + 1] == lines[..i] + [lines[i]];
  }

  /** The first line of a table that does not have three fields ends the reading with its error. */
  lemma SourceLineError(files: Files, k: nat, lines: seq<Line>, i: nat)
    requires k < |Sources| && SourceAssignments(files, k).Ok?
    requires TablePath(Sources[k]) in files && lines == files[TablePath(Sources[k])]
    requires i < |lines| && MapAll(lines[..i], SourceParser(Sources[k])).Ok? && |lines[i]| != 3
    ensures SourceMap(files) == Err(Unpack(3, |lines[i]|))
  {
    var f := SourceParser(Sources[k]);
    MapAllMeaning(lines[..i], f);
    assert forall j :: 0 <= j < i ==> lines[..i][j] == lines[j];
    MapAllFirstError(lines, f, i);
    assert SourceAssignments(files, k + 1) == Err(Unpack(3, |lines[i]|));
    SourceErrorSticks(files, k + 1);
  }

  /** Table `i`'s lines, or none when its file is missing. */
  ghost function TableLines(files: Files, i: nat): seq<Line>
    requires i < |Sources|
  {
    if TablePath(Sources[i]) in files then files[TablePath(Sources[i])] else []
  }

  /** The record identifiers the lines of a table name. */
  ghost function Ids(lines: seq<Line>): set<string>
  {
    set a | 0 <= a < |lines| && |lines[a]| == 3 :: StationId(lines[a])
  }

  /** Table `i` exists and every one of its lines has exactly three fields. */
  ghost predicate TableOk(files: Files, i: nat)
    requires i < |Sources|
  {
    TablePath(Sources[i]) in files && forall line :: line in TableLines(files, i) ==> |line| == 3
  }

  /** The first `k` tables are all well formed. */
  ghost predicate SourcesWellFormed(files: Files, k: nat)
    requires k <= |Sources|
  {
    forall i :: 0 <= i < k ==> TableOk(files, i)
  }

  /** The map one table contributes: every identifier it lists, to its label. */
  ghost function TableMap(source: string, lines: seq<Line>): map<string, string>
  {
    map id | id in Ids(lines) :: source
  }

  /** Reading one table succeeds exactly when each of its lines has three fields. */
  lemma TableParse(source: string, lines: seq<Line>)
    ensures MapAll(lines, SourceParser(source)).Ok? <==> forall line :: line in lines ==> |line| == 3
  {
    var f := SourceParser(source);
    MapAllMeaning(lines, f);
    if MapAll(lines, f).Ok? {
      forall line | line in lines ensures |line| == 3 {
        var a :| 0 <= a < |lines| && lines[a] == line;
        assert f(lines[a]).Ok?;
      }
    } else {
      var a :| 0 <= a < |lines| && !f(lines[a]).Ok?;
      assert lines[a] in lines;
    }
  }

  /** A well-formed table assigns, line by line, each line's identifier to the table's label. */
  lemma TableEntries(source: string, lines: seq<Line>)
    requires forall line :: line in lines ==> |line| == 3
    ensures MapAll(lines, SourceParser(source)).Ok?
    ensures var es := MapAll(lines, SourceParser(source)).value;
            |es| == |lines| && forall a :: 0 <= a < |lines| ==> es[a] == (StationId(lines[a]), source)
  {
    assert forall a :: 0 <= a < |lines| ==> lines[a] in lines;
    MapAllMeaning(lines, SourceParser(source));
  }

  /** Each table, read on its own, maps every identifier it lists to its label. */
  lemma TableAssignments(source: string, lines: seq<Line>)
    requires forall line :: line in lines ==> |line| == 3
    ensures MapAll(lines, SourceParser(source)).Ok?
    ensures var es := MapAll(lines, SourceParser(source)).value;
            |es| == |lines| && (forall a :: 0 <= a < |lines| ==> es[a] == (StationId(lines[a]), source)) &&
            Assign(es) == TableMap(source, lines)
  {
    TableEntries(source, lines);
    EntriesMap(source, lines, MapAll(lines, SourceParser(source)).value);
  }

  /** Assigning each line's identifier to one label gives that label to exactly the listed identifiers. */
  lemma EntriesMap(source: string, lines: seq<Line>, es: seq<(string, string)>)
    requires forall line :: line in lines ==> |line| == 3
    requires |es| == |lines| && forall a :: 0 <= a < |lines| ==> es[a] == (StationId(lines[a]), source)
    ensures Assign(es) == TableMap(source, lines)
  {
    EntriesListed(source, lines, es);
    EntriesAssigned(source, lines, es);
  }

  /** Every key assigned is a listed identifier, holding the label. */
  lemma EntriesListed(source: string, lines: seq<Line>, es: seq<(string, string)>)
    requires |es| == |lines| && forall a :: 0 <= a < |lines| ==> |lines[a]| == 3 && es[a] == (StationId(lines[a]), source)
    ensures forall id :: id in Assign(es) ==> id in Ids(lines) && Assign(es)[id] == source
  {
    AssignLastWins(es);
  }

  /** Every listed identifier is assigned. */
  lemma EntriesAssigned(source: string, lines: seq<Line>, es: seq<(string, string)>)
    requires |es| == |lines| && forall a :: 0 <= a < |lines| ==> |lines[a]| == 3 && es[a] == (StationId(lines[a]), source)
    ensures forall id :: id in Ids(lines) ==> id in Assign(es)
  {
    AssignLastWins(es);
  }

  /** The lines of the three tables, in reading order; a missing table has none. */
  ghost function Tables(files: Files): (ts: seq<seq<Line>>)
    ensures |ts| == |Sources|
  {
    seq(|Sources|, i requires 0 <= i < |Sources| => TableLines(files, i))
  }

  /** The maps of the first `k` tables merged in reading order, later tables taking precedence. */
  ghost function Merged(ts: seq<seq<Line>>, k: nat): map<string, string>
    requires k <= |ts| && k <= |Sources|
  {
    if k == 0 then map[] else Merged(ts, k - 1) + TableMap(Sources[k - 1], ts[k - 1])
  }

  lemma SourceAssignmentsMeaning(files: Files, k: nat)
    requires k <= |Sources|
    ensures SourceAssignments(files, k).Ok? <==> SourcesWellFormed(files, k)
    ensures SourceAssignments(files, k).Ok? ==> Assign(SourceAssignments(files, k).value) == Merged(Tables(files), k)
  {
    SourceAssignmentsOk(files, k);
    if SourceAssignments(files, k).Ok? {
      SourceAssignmentsMerged(files, k);
    }
  }

  /** Reading the first `k` tables succeeds exactly when they are all present and well formed. */
  lemma {:induction false} SourceAssignmentsOk(files: Files, k: nat)
    requires k <= |Sources|
    ensures SourceAssignments(files, k).Ok? <==> SourcesWellFormed(files, k)
    decreases k
  {
    if k > 0 {
      SourceAssignmentsOk(files, k - 1);
      assert SourcesWellFormed(files, k) <==> SourcesWellFormed(files, k - 1) && TableOk(files, k - 1);
      var path := TablePath(Sources[k - 1]);
      if SourceAssignments(files, k - 1).Ok? && path in files {
        var lines := files[path];
        assert lines == TableLines(files, k - 1);
        TableParse(Sources[k - 1], lines);
      }
    }
  }

  /** When reading succeeds, its assignments build the merge of the tables' maps. */
  lemma {:induction false} SourceAssignmentsMerged(files: Files, k: nat)
    requires k <= |Sources| && SourceAssignments(files, k).Ok?
    ensures Assign(SourceAssignments(files, k).value) == Merged(Tables(files), k)
    decreases k
  {
    if k > 0 {
      var done := SourceAssignments(files, k - 1).value;
      SourceAssignmentsMerged(files, k - 1);
      var lines := files[TablePath(Sources[k - 1])];
      var es := MapAll(lines, SourceParser(Sources[k - 1])).value;
      assert SourceAssignments(files, k) == Ok(done + es);
      assert lines == Tables(files)[k - 1];
      TableParse(Sources[k - 1], lines);
      TableAssignments(Sources[k - 1], lines);
      AssignConcat(done, es);
    }
  }

  /**
   * `v2_get_sources()` fails exactly when one of the three tables is missing
   * or has a line that does not split into exactly three fields.
   */
  lemma SourceMapOk(files: Files)
    ensures SourceMap(files).Ok? <==> forall i :: 0 <= i < |Sources| ==> TableOk(files, i)
  {
    SourceAssignmentsMeaning(files, |Sources|);
  }

  /** The keys of the merged maps are the identifiers the tables list. */
  lemma {:induction false} MergedKeys(ts: seq<seq<Line>>, k: nat)
    requires k <= |ts| && k <= |Sources|
    ensures forall id :: id in Merged(ts, k) <==> exists i :: 0 <= i < k && id in Ids(ts[i])
    ensures forall id :: id in Merged(ts, k) ==> Merged(ts, k)[id] in Sources
    decreases k
  {
    if k > 0 {
      MergedKeys(ts, k - 1);
    }
  }

  /** A key holds the label of the last of the first `k` tables that lists it. */
  lemma {:induction false} MergedLastWins(ts: seq<seq<Line>>, k: nat)
    requires k <= |ts| && k <= |Sources|
    ensures forall i, id ::
              0 <= i < k && id in Ids(ts[i]) && (forall j :: i < j < k ==> id !in Ids(ts[j]))
              ==> id in Merged(ts, k) && Merged(ts, k)[id] == Sources[i]
    decreases k
  {
    if k > 0 {
      MergedLastWins(ts, k - 1);
      var before, t := Merged(ts, k - 1), TableMap(Sources[k - 1], ts[k - 1]);
      assert Merged(ts, k) == before + t;
      forall i, id | 0 <= i < k && id in Ids(ts[i]) && (forall j :: i < j < k ==> id !in Ids(ts[j]))
        ensures id in Merged(ts, k) && Merged(ts, k)[id] == Sources[i]
      {
        if i < k - 1 {
          assert id !in Ids(ts[k - 1]);
          assert id !in t;
        } else {
          assert id in t;
        }
      }
    }
  }

  /** The keys are exactly the `id11 + duplicate` of the three tables' lines. */
  lemma SourceMapKeys(files: Files, m: map<string, string>)
    requires SourceMap(files) == Ok(m)
    ensures forall id :: id in m <==> exists i :: 0 <= i < |Sources| && id in Ids(Tables(files)[i])
    ensures forall id :: id in m ==> m[id] in Sources
  {
    SourceAssignmentsMeaning(files, |Sources|);
    MergedKeys(Tables(files), |Sources|);
  }

  /**
   * A key holds the label of the last table listing it, the tables being
   * read in the order MCDW, USHCN2, SUMOFDAY.
   */
  lemma SourceMapLastTableWins(files: Files, m: map<string, string>)
    requires SourceMap(files) == Ok(m)
    ensures forall i, id ::
              0 <= i < |Sources| && id in Ids(Tables(files)[i]) &&
              (forall j :: i < j < |Sources| ==> id !in Ids(Tables(files)[j]))
              ==> id in m && m[id] == Sources[i]
  {
    SourceAssignmentsMeaning(files, |Sources|);
    assert m == Merged(Tables(files), |Sources|);
    MergedLastWins(Tables(files), |Sources|);
  }

  /** The station lines of the first `k` tables, in reading order. */
  ghost function LinesUpTo(files: Files, k: nat): seq<Line>
    requires k <= |Sources|
  {
    if k == 0 then [] else LinesUpTo(files, k - 1) + TableLines(files, k - 1)
  }

  /** `es` assigns, position by position, the identifiers of the three-field lines `ls`. */
  ghost predicate AssignsIds(ls: seq<Line>, es: seq<(string, string)>)
  {
    |es| == |ls| && forall a :: 0 <= a < |ls| ==> |ls[a]| == 3 && es[a].0 == StationId(ls[a])
  }

  lemma AssignsIdsConcat(ls: seq<Line>, es: seq<(string, string)>, ls': seq<Line>, es': seq<(string, string)>)
    requires AssignsIds(ls, es) && AssignsIds(ls', es')
    ensures AssignsIds(ls + ls', es + es')
  {
    forall a | 0 <= a < |ls| + |ls'| ensures |(ls + ls')[a]| == 3 && (es + es')[a].0 == StationId((ls + ls')[a]) {
      if a >= |ls| {
        assert (ls + ls')[a] == ls'[a - |ls|] && (es + es')[a] == es'[a - |ls|];
      } else {
        assert (ls + ls')[a] == ls[a] && (es + es')[a] == es[a];
      }
    }
  }

  /** Reading well-formed tables assigns one identifier per line, in reading order. */
  lemma {:induction false} SourceAssignmentsIds(files: Files, k: nat)
    requires k <= |Sources| && SourcesWellFormed(files, k)
    ensures SourceAssignments(files, k).Ok?
    ensures AssignsIds(LinesUpTo(files, k), SourceAssignments(files, k).value)
    decreases k
  {
    if k > 0 {
      SourceAssignmentsIds(files, k - 1);
      assert TableOk(files, k - 1);
      var t := TableLines(files, k - 1);
      TableEntries(Sources[k - 1], t);
      var tes := MapAll(t, SourceParser(Sources[k - 1])).value;
      assert AssignsIds(t, tes);
      var done := SourceAssignments(files, k - 1).value;
      assert SourceAssignments(files, k) == Ok(done + tes);
      AssignsIdsConcat(LinesUpTo(files, k - 1), done, t, tes);
    }
  }

  /**
   * When no record identifier occurs twice across the three tables, the
   * dictionary has one entry per station line.
   */
  lemma SourceMapSize(files: Files)
    requires SourcesWellFormed(files, |Sources|)
    requires forall a, b :: 0 <= a < b < |LinesUpTo(files, |Sources|)| ==>
               |LinesUpTo(files, |Sources|)[a]| == 3 && |LinesUpTo(files, |Sources|)[b]| == 3 &&
               StationId(LinesUpTo(files, |Sources|)[a]) != StationId(LinesUpTo(files, |Sources|)[b])
    ensures SourceMap(files).Ok? && |SourceMap(files).value| == |LinesUpTo(files, |Sources|)|
  {
    SourceAssignmentsIds(files, |Sources|);
    AssignSize(SourceAssignments(files, |Sources|).value);
  }

  // ---------------------------------------------------------------------
  // step1_adjust

  const AdjustPath: string := "config/step1_adjust"

  /** `(int(year), int(month), float(summand))`; the summand is kept as its text. */
  datatype Adjustment = Adjustment(year: int, month: int, summand: string)

  /**
   * One line: `id, _, year, month, summand = line.split()`, then the tuple is
   * built left to right, so the year is parsed before the month and the
   * month before the summand. `isFloat` stands for whether `float()` accepts a text.
   */
  function AdjustEntry(isFloat: string -> bool, line: Line): Result<(string, Adjustment), LoadError>
  {
    if |line| != 5 then Err(Unpack(5, |line|))
    else
      match Int(line[2])
      case Err(e) => Err(e)
      case Ok(year) =>
        match Int(line[3])
        case Err(e) => Err(e)
        case Ok(month) =>
          if isFloat(line[4]) then Ok((line[0], Adjustment(year, month, line[4])))
          else Err(NotAFloat(line[4]))
  }

  function AdjustParser(isFloat: string -> bool): Line -> Result<(string, Adjustment), LoadError>
  {
    line => AdjustEntry(isFloat, line)
  }

  /** What `step1_adjust()` returns, or the error it raises. */
  function AdjustMap(files: Files, isFloat: string -> bool): Result<map<string, Adjustment>, LoadError>
  {
    if AdjustPath !in files then Err(FileNotFound(AdjustPath))
    else
      match MapAll(files[AdjustPath], AdjustParser(isFloat))
      case Err(e) => Err(e)
      case Ok(es) => Ok(Assign(es))
  }

  /** `step1_adjust()`. */
  method Step1Adjust(files: Files, isFloat: string -> bool) returns (r: Result<map<string, Adjustment>, LoadError>)
    ensures r == AdjustMap(files, isFloat)
  {
    if AdjustPath !in files {
      return Err(FileNotFound(AdjustPath));
    }
    var lines := files[AdjustPath];
    var adjust: map<string, Adjustment> := map[];
    ghost var made: seq<(string, Adjustment)> := [];
    for i := 0 to |lines|
      invariant MapAll(lines[..i], AdjustParser(isFloat)) == Ok(made)
      invariant adjust == Assign(made)
    {
      var line := lines[i];
      if |line| != 5 {
        MapAllPrefixErr(lines, AdjustParser(isFloat), i);
        return Err(Unpack(5, |line|));
      }
      var year := ParseInt(line[2]);
      if year.None? {
        MapAllPrefixErr(lines, AdjustParser(isFloat), i);
        return Err(NotAnInt(line[2]));
      }
      var month := ParseInt(line[3]);
      if month.None? {
        MapAllPrefixErr(lines, AdjustParser(isFloat), i);
        return Err(NotAnInt(line[3]));
      }
      if !isFloat(line[4]) {
        MapAllPrefixErr(lines, AdjustParser(isFloat), i);
        return Err(NotAFloat(line[4]));
      }
      var entry := (line[0], Adjustment(year.value, month.value, line[4]));
      MapAllPrefixOk(lines, AdjustParser(isFloat), i, made);
      AssignSnoc(made, entry);
      adjust := adjust[entry.0 := entry.1];
      made := made + [entry];
    }
    assert lines[..|lines|] == lines;
    return Ok(adjust);
  }

  /** A line `step1_adjust()` accepts: five fields, the third and fourth integers, the fifth a float. */
  ghost predicate AdjustLineOk(isFloat: string -> bool, line: Line)
  {
    |line| == 5 && IntLiteral(line[2]) && IntLiteral(line[3]) && isFloat(line[4])
  }

  /** `step1_adjust()` fails exactly when the file is missing or one of its lines is malformed. */
  lemma AdjustMapOk(files: Files, isFloat: string -> bool)
    ensures AdjustMap(files, isFloat).Ok? <==>
              AdjustPath in files && forall line :: line in files[AdjustPath] ==> AdjustLineOk(isFloat, line)
  {
    if AdjustPath in files {
      var lines := files[AdjustPath];
      MapAllMeaning(lines, AdjustParser(isFloat));
      if AdjustMap(files, isFloat).Ok? {
        forall line | line in lines ensures AdjustLineOk(isFloat, line) {
          var i :| 0 <= i < |lines| && lines[i] == line;
          assert AdjustParser(isFloat)(lines[i]).Ok?;
        }
      } else {
        var i :| 0 <= i < |lines| && !AdjustParser(isFloat)(lines[i]).Ok?;
        assert lines[i] in lines && !AdjustLineOk(isFloat, lines[i]);
      }
    }
  }

  /** The pair a well-formed line assigns: its first field, and its year, month and summand. */
  lemma AdjustEntries(files: Files, isFloat: string -> bool)
    requires AdjustMap(files, isFloat).Ok?
    ensures AdjustPath in files
    ensures var lines := files[AdjustPath];
            MapAll(lines, AdjustParser(isFloat)).Ok? &&
            |MapAll(lines, AdjustParser(isFloat)).value| == |lines| &&
            forall i :: 0 <= i < |lines| ==>
              |lines[i]| == 5 && IntLiteral(lines[i][2]) && IntLiteral(lines[i][3]) && isFloat(lines[i][4]) &&
              MapAll(lines, AdjustParser(isFloat)).value[i] ==
                (lines[i][0], Adjustment(ParseInt(lines[i][2]).value, ParseInt(lines[i][3]).value, lines[i][4]))
  {
    MapAllMeaning(files[AdjustPath], AdjustParser(isFloat));
  }

  /**
   * Overwrite, never accumulate: the keys are the first fields of the lines,
   * and a key holds the year, month and summand of the last line with that
   * first field. The second field takes no part.
   */
  lemma AdjustMapLastWins(files: Files, isFloat: string -> bool, m: map<string, Adjustment>)
    requires AdjustMap(files, isFloat) == Ok(m)
    ensures AdjustPath in files
    ensures forall i :: 0 <= i < |files[AdjustPath]| ==>
              |files[AdjustPath][i]| == 5 && IntLiteral(files[AdjustPath][i][2]) &&
              IntLiteral(files[AdjustPath][i][3]) && isFloat(files[AdjustPath][i][4])
    ensures forall id :: id in m <==> exists i :: 0 <= i < |files[AdjustPath]| && files[AdjustPath][i][0] == id
    ensures var lines := files[AdjustPath];
            forall i :: 0 <= i < |lines| && (forall j :: i < j < |lines| ==> lines[j][0] != lines[i][0]) ==>
              lines[i][0] in m &&
              m[lines[i][0]] == Adjustment(ParseInt(lines[i][2]).value, ParseInt(lines[i][3]).value, lines[i][4])
  {
    AdjustEntries(files, isFloat);
    AssignLastWins(MapAll(files[AdjustPath], AdjustParser(isFloat)).value);
  }

  /** The second of two well-formed lines for the same identifier replaces the first. */
  lemma AdjustTwoLines(isFloat: string -> bool, l0: Line, l1: Line)
    requires AdjustLineOk(isFloat, l0) && AdjustLineOk(isFloat, l1) && l0[0] == l1[0]
    ensures AdjustMap(map[AdjustPath := [l0, l1]], isFloat) ==
              Ok(map[l0[0] := Adjustment(ParseInt(l1[2]).value, ParseInt(l1[3]).value, l1[4])])
  {
    var f := AdjustParser(isFloat);
    assert f(l0) == Ok((l0[0], Adjustment(ParseInt(l0[2]).value, ParseInt(l0[3]).value, l0[4])));
    assert f(l1) == Ok((l0[0], Adjustment(ParseInt(l1[2]).value, ParseInt(l1[3]).value, l1[4])));
    MapAllPair(l0, l1, f);
    AssignPair(l0[0], f(l0).value.1, f(l1).value.1);
  }

  // ---------------------------------------------------------------------
  // get_changes_dict

  const ChangesPath: string := "config/Ts.strange.RSU.list.IN"

  /** `('years', first, last)` or `('month', year, month)`. */
  datatype Directive = Years(first: int, last: int) | Month(year: int, month: int)

  /** Exactly two pieces, both integers. */
  predicate TwoInts(parts: seq<string>)
  {
    |parts| == 2 && IntLiteral(parts[0]) && IntLiteral(parts[1])
  }

  /**
   * `a, b = map(int, text.split(sep))`: every piece is converted first, so a
   * piece that is not an integer is reported before a wrong piece count.
   */
  function IntPair(text: string, sep: char): Result<(int, int), LoadError>
  {
    match MapAll(Split(text, sep), Int)
    case Err(e) => Err(e)
    case Ok(ns) => if |ns| == 2 then Ok((ns[0], ns[1])) else Err(Unpack(2, |ns|))
  }

  /**
   * The pair parses exactly when there are two pieces and both are integers;
   * a non-integer piece is reported as such, before any count mismatch.
   */
  lemma IntPairMeaning(text: string, sep: char)
    ensures IntPair(text, sep).Ok? <==> TwoInts(Split(text, sep))
    ensures IntPair(text, sep).Ok? ==>
              IntPair(text, sep).value == (ParseInt(Split(text, sep)[0]).value, ParseInt(Split(text, sep)[1]).value)
    ensures (exists i :: 0 <= i < |Split(text, sep)| && !IntLiteral(Split(text, sep)[i])) ==>
              IntPair(text, sep).Err? && IntPair(text, sep).error.NotAnInt?
    ensures (forall i :: 0 <= i < |Split(text, sep)| ==> IntLiteral(Split(text, sep)[i])) && !TwoInts(Split(text, sep)) ==>
              IntPair(text, sep) == Err(Unpack(2, |Split(text, sep)|))
  {
    MapAllMeaning(Split(text, sep), Int);
  }

  /**
   * The last field of an omission line: first tried as `first-last`; only if
   * that raises ValueError, tried as `year/month`, whose ValueError propagates.
   */
  function ParseDirective(text: string): Result<Directive, LoadError>
  {
    match IntPair(text, '-')
    case Ok((a, b)) => Ok(Years(a, b))
    case Err(_) =>
      match IntPair(text, '/')
      case Ok((y, m)) => Ok(Month(y, m))
      case Err(e) => Err(e)
  }

  /**
   * The hyphen form wins whenever it parses; the slash form is used only when
   * it does not; a text that fits neither is an error.
   */
  lemma ParseDirectiveCases(text: string)
    ensures (ParseDirective(text).Ok? && ParseDirective(text).value.Years?) <==> TwoInts(Split(text, '-'))
    ensures (ParseDirective(text).Ok? && ParseDirective(text).value.Month?) <==>
              !TwoInts(Split(text, '-')) && TwoInts(Split(text, '/'))
    ensures ParseDirective(text).Err? <==> !TwoInts(Split(text, '-')) && !TwoInts(Split(text, '/'))
  {
    IntPairMeaning(text, '-');
    IntPairMeaning(text, '/');
  }

  /** A text holding a '/' is never read as a year range. */
  lemma SlashNeverYears(text: string)
    requires '/' in text
    ensures !(ParseDirective(text).Ok? && ParseDirective(text).value.Years?)
  {
    SplitKeeps(text, '-', '/');
    IntPairMeaning(text, '-');
    var parts := Split(text, '-');
    var i :| 0 <= i < |parts| && '/' in parts[i];
    assert !IntLiteral(parts[i]) by {
      var j :| 0 <= j < |parts[i]| && parts[i][j] == '/';
      if |parts[i]| > 0 && (parts[i][0] == '-' || parts[i][0] == '+') {
        assert j > 0 && parts[i][1..][j - 1] == '/';
      }
    }
  }

  /** Two integer texts without hyphens, joined by one, read as a year range. */
  lemma YearsForm(a: string, b: string)
    requires IntLiteral(a) && IntLiteral(b) && '-' !in a && '-' !in b
    ensures ParseDirective(a + "-" + b) == Ok(Years(ParseInt(a).value, ParseInt(b).value))
  {
    var text := a + "-" + b;
    assert Join([a, b], '-') == text;
    SplitJoin([a, b], '-');
    IntPairMeaning(text, '-');
  }

  /** Two integer texts without slashes, joined by one, read as a month. */
  lemma MonthForm(a: string, b: string)
    requires IntLiteral(a) && IntLiteral(b) && '/' !in a && '/' !in b
    ensures ParseDirective(a + "/" + b) == Ok(Month(ParseInt(a).value, ParseInt(b).value))
  {
    var text := a + "/" + b;
    assert text[|a|] == '/';
    SlashNeverYears(text);
    assert Join([a, b], '/') == text;
    SplitJoin([a, b], '/');
    IntPairMeaning(text, '/');
  }

  /** `str(a) + '-' + str(b)` reads back as the year range (a, b) when neither is negative. */
  lemma YearsRoundTrip(a: int, b: int)
    requires a >= 0 && b >= 0
    ensures ParseDirective(ShowInt(a) + "-" + ShowInt(b)) == Ok(Years(a, b))
  {
    ParseShowInt(a);
    ParseShowInt(b);
    YearsForm(ShowInt(a), ShowInt(b));
  }

  /** `str(y) + '/' + str(m)` reads back as the month (y, m), for every pair of integers. */
  lemma MonthRoundTrip(y: int, m: int)
    ensures ParseDirective(ShowInt(y) + "/" + ShowInt(m)) == Ok(Month(y, m))
  {
    ParseShowInt(y);
    ParseShowInt(m);
    MonthForm(ShowInt(y), ShowInt(m));
  }

  /** A negative first year cannot be written in the hyphen form: "-5-10" is rejected. */
  lemma NegativeStartRejected()
    ensures ParseDirective("-5-10").Err?
  {
    assert Join(["", "5", "10"], '-') == "-5-10";
    SplitJoin(["", "5", "10"], '-');
    NoSepSplit("-5-10", '/');
    IntPairMeaning("-5-10", '-');
    IntPairMeaning("-5-10", '/');
  }

  /** A year range as it appears in the omission list. */
  lemma YearsExample()
    ensures ParseDirective("1920-1930") == Ok(Years(1920, 1930))
  {
    assert ShowNat(192) == "192" && ShowNat(193) == "193";
    assert ShowInt(1920) == "1920" && ShowInt(1930) == "1930";
    YearsRoundTrip(1920, 1930);
    assert ShowInt(1920) + "-" + ShowInt(1930) == "1920-1930";
  }

  /** A range may start at year 0. */
  lemma YearZeroExample()
    ensures ParseDirective("0-1954") == Ok(Years(0, 1954))
  {
    assert ShowNat(195) == "195";
    assert ShowInt(0) == "0" && ShowInt(1954) == "1954";
    YearsRoundTrip(0, 1954);
    assert ShowInt(0) + "-" + ShowInt(1954) == "0-1954";
  }

  lemma ParseExamples()
    ensures ParseInt("1914") == Some(1914) && ParseInt("07") == Some(7)
  {
    ParseShowInt(1914);
    assert ShowNat(19) == "19" && ShowNat(191) == "191";
    assert ShowInt(1914) == "1914";
    assert DigitsValue("07") == 7 by {
      assert "07"[..1] == "0";
    }
  }

  /** A single month, with a zero-padded month number. */
  lemma MonthExample()
    ensures ParseDirective("1914/07") == Ok(Month(1914, 7))
  {
    ParseExamples();
    MonthForm("1914", "07");
    assert "1914" + "/" + "07" == "1914/07";
  }

  /**
   * One omission line: `id = split_line[0]` (IndexError on a blank line),
   * then the directive from `split_line[-1]`.
   */
  function ChangeEntry(line: Line): Result<(string, Directive), LoadError>
  {
    if |line| == 0 then Err(NoFields)
    else
      match ParseDirective(line[|line| - 1])
      case Err(e) => Err(e)
      case Ok(d) => Ok((line[0], d))
  }

  /** What `get_changes_dict()` returns, or the error it raises. */
  function ChangesMap(files: Files): Result<map<string, seq<Directive>>, LoadError>
  {
    if ChangesPath !in files then Err(FileNotFound(ChangesPath))
    else
      match MapAll(files[ChangesPath], ChangeEntry)
      case Err(e) => Err(e)
      case Ok(es) => Ok(Accumulate(es))
  }

  /** The `try`/`except ValueError` on the last field: the hyphen form, else the slash form. */
  method ReadDirective(last: string) returns (r: Result<Directive, LoadError>)
    ensures r == ParseDirective(last)
  {
    var years := IntPair(last, '-');
    if years.Ok? {
      return Ok(Years(years.value.0, years.value.1));
    }
    var month := IntPair(last, '/');
    if month.Err? {
      return Err(month.error);
    }
    return Ok(Month(month.value.0, month.value.1));
  }

  /** The first line that fails decides the error of the whole file. */
  lemma ChangesStopAt(lines: seq<Line>, i: nat, made: seq<(string, Directive)>)
    requires i < |lines| && MapAll(lines[..i], ChangeEntry) == Ok(made) && ChangeEntry(lines[i]).Err?
    ensures MapAll(lines, ChangeEntry) == Err(ChangeEntry(lines[i]).error)
  {
    MapAllMeaning(lines[..i], ChangeEntry);
    assert forall j :: 0 <= j < i ==> lines[..i][j] == lines[j];
    MapAllFirstError(lines, ChangeEntry, i);
  }

  /** `get_changes_dict()`. */
  method GetChangesDict(files: Files) returns (r: Result<map<string, seq<Directive>>, LoadError>)
    ensures r == ChangesMap(files)
  {
    if ChangesPath !in files {
      return Err(FileNotFound(ChangesPath));
    }
    var lines := files[ChangesPath];
    var dict: map<string, seq<Directive>> := map[];
    ghost var made: seq<(string, Directive)> := [];
    for i := 0 to |lines|
      invariant MapAll(lines[..i], ChangeEntry) == Ok(made)
      invariant dict == Accumulate(made)
    {
      var splitLine := lines[i];
      if |splitLine| == 0 {
        ChangesStopAt(lines, i, made);
        return Err(NoFields);
      }
      var id := splitLine[0];
      var directive := ReadDirective(splitLine[|splitLine| - 1]);
      if directive.Err? {
        ChangesStopAt(lines, i, made);
        return Err(directive.error);
      }
      var val := directive.value;
      assert ChangeEntry(splitLine) == Ok((id, val));
      MapAllPrefixOk(lines, ChangeEntry, i, made);
      AccumulateSnoc(made, (id, val));
      dict := dict[id := (if id in dict then dict[id] else []) + [val]];
      made := made + [(id, val)];
    }
    assert lines[..|lines|] == lines;
    return Ok(dict);
  }

  /** A line `get_changes_dict()` accepts: at least one field, the last a directive. */
  ghost predicate ChangeLineOk(line: Line)
  {
    |line| > 0 && ParseDirective(line[|line| - 1]).Ok?
  }

  /** The directives of the lines naming `id`, in file order. */
  ghost function DirectivesFor(lines: seq<Line>, id: string): seq<Directive>
    decreases |lines|
  {
    if lines == [] then []
    else
      var last := lines[|lines| - 1];
      DirectivesFor(lines[..|lines| - 1], id) +
      (if |last| > 0 && last[0] == id then
         match ParseDirective(last[|last| - 1])
         case Ok(d) => [d]
         case Err(_) => []
       else [])
  }

  /** `get_changes_dict()` fails exactly when the file is missing or one of its lines is blank or ends in neither form. */
  lemma ChangesMapOk(files: Files)
    ensures ChangesMap(files).Ok? <==>
              ChangesPath in files && forall line :: line in files[ChangesPath] ==> ChangeLineOk(line)
  {
    if ChangesPath in files {
      var lines := files[ChangesPath];
      MapAllMeaning(lines, ChangeEntry);
      if ChangesMap(files).Ok? {
        forall line | line in lines ensures ChangeLineOk(line) {
          var i :| 0 <= i < |lines| && lines[i] == line;
          assert ChangeEntry(lines[i]).Ok?;
        }
      } else {
        var i :| 0 <= i < |lines| && !ChangeEntry(lines[i]).Ok?;
        assert lines[i] in lines && !ChangeLineOk(lines[i]);
      }
    }
  }

  lemma {:induction false} ValuesForLines(lines: seq<Line>, es: seq<(string, Directive)>, id: string)
    requires |es| == |lines| && forall i :: 0 <= i < |lines| ==> ChangeEntry(lines[i]) == Ok(es[i])
    ensures ValuesFor(es, id) == DirectivesFor(lines, id)
    decreases |lines|
  {
    if lines != [] {
      var n := |lines| - 1;
      ValuesForLines(lines[..n], es[..n], id);
      assert ChangeEntry(lines[n]) == Ok(es[n]);
    }
  }

  /** The entry each line of a readable omission list contributes. */
  lemma ChangesEntries(lines: seq<Line>)
    requires MapAll(lines, ChangeEntry).Ok?
    ensures var es := MapAll(lines, ChangeEntry).value;
            |es| == |lines| && forall i :: 0 <= i < |lines| ==> ChangeEntry(lines[i]) == Ok(es[i])
  {
    MapAllMeaning(lines, ChangeEntry);
  }

  /**
   * Directives accumulate per identifier: the keys are the first fields of
   * the lines, and each holds one directive per line with that first field,
   * in file order.
   */
  lemma ChangesMapPerStation(files: Files, m: map<string, seq<Directive>>)
    requires ChangesMap(files) == Ok(m)
    ensures ChangesPath in files
    ensures forall i :: 0 <= i < |files[ChangesPath]| ==>
              |files[ChangesPath][i]| > 0 && ParseDirective(files[ChangesPath][i][|files[ChangesPath][i]| - 1]).Ok?
    ensures forall id :: id in m <==> exists i :: 0 <= i < |files[ChangesPath]| && files[ChangesPath][i][0] == id
    ensures forall id :: id in m ==> m[id] == DirectivesFor(files[ChangesPath], id)
  {
    ChangesMapKeys(files, m);
    ChangesMapValues(files, m);
  }

  /** Every line is well formed, and the keys are the lines' first fields. */
  lemma ChangesMapKeys(files: Files, m: map<string, seq<Directive>>)
    requires ChangesMap(files) == Ok(m)
    ensures ChangesPath in files
    ensures forall i :: 0 <= i < |files[ChangesPath]| ==>
              |files[ChangesPath][i]| > 0 && ParseDirective(files[ChangesPath][i][|files[ChangesPath][i]| - 1]).Ok?
    ensures forall id :: id in m <==> exists i :: 0 <= i < |files[ChangesPath]| && files[ChangesPath][i][0] == id
  {
    var lines := files[ChangesPath];
    ChangesEntries(lines);
    var es := MapAll(lines, ChangeEntry).value;
    assert m == Accumulate(es);
    AccumulateKeepsAll(es);
    forall i | 0 <= i < |lines| ensures |lines[i]| > 0 && ParseDirective(lines[i][|lines[i]| - 1]).Ok? && es[i].0 == lines[i][0] {
      assert ChangeEntry(lines[i]) == Ok(es[i]);
    }
  }

  /** Each key holds the directives of its lines, in file order. */
  lemma ChangesMapValues(files: Files, m: map<string, seq<Directive>>)
    requires ChangesMap(files) == Ok(m)
    ensures ChangesPath in files
    ensures forall id :: id in m ==> m[id] == DirectivesFor(files[ChangesPath], id)
  {
    var lines := files[ChangesPath];
    ChangesEntries(lines);
    var es := MapAll(lines, ChangeEntry).value;
    assert m == Accumulate(es);
    AccumulateKeepsAll(es);
    forall id | id in m ensures m[id] == DirectivesFor(lines, id) {
      ValuesForLines(lines, es, id);
    }
  }

  /** Two lines for one station keep both directives, in file order. */
  lemma ChangesTwoLines(l0: Line, l1: Line, d0: Directive, d1: Directive)
    requires |l0| > 0 && |l1| > 0 && l0[0] == l1[0]
    requires ParseDirective(l0[|l0| - 1]) == Ok(d0) && ParseDirective(l1[|l1| - 1]) == Ok(d1)
    ensures ChangesMap(map[ChangesPath := [l0, l1]]) == Ok(map[l0[0] := [d0, d1]])
  {
    assert ChangeEntry(l0) == Ok((l0[0], d0));
    assert ChangeEntry(l1) == Ok((l0[0], d1));
    MapAllPair(l0, l1, ChangeEntry);
    AccumulatePair(l0[0], d0, d1);
  }

  lemma ChangesExample()
    ensures ChangesMap(map[ChangesPath := [["X", "name", "1914/07"], ["X", "name", "0-1954"]]]) ==
            Ok(map["X" := [Month(1914, 7), Years(0, 1954)]])
  {
    MonthExample();
    YearZeroExample();
    ChangesTwoLines(["X", "name", "1914/07"], ["X", "name", "0-1954"], Month(1914, 7), Years(0, 1954));
  }
}
