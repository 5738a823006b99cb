/**
 * Selecting the records to plot (`asdict`) and the station metadata that goes
 * with them (`get_meta`), from stationplot.py.
 *
 * A v2.mean line starts with a 12-character record identifier: an 11-character
 * station identifier followed by a duplicate digit. A v2.inv metadata line
 * starts with the 11-character station identifier.
 */
module StationSelect {
  import opened Outcomes
  import opened PyText
  import opened Dicts
  import opened Itertools

  // ---------------------------------------------------------------------
  // asdict

  /** `line[:12]`: the record identifier of a data line. */
  function Id12(line: string): string
  {
    Prefix(line, 12)
  }

  /** A record is kept when its 12-character or its 11-character identifier was asked for. */
  predicate Wanted(arg: seq<string>, id12: string)
  {
    id12 in arg || Prefix(id12, 11) in arg
  }

  /** The table the loop leaves after the groups `gs`: `table[id12] = list(lines)` for each kept group. */
  function RecordTable(arg: seq<string>, gs: seq<Group<string, string>>): map<string, seq<string>>
    decreases |gs|
  {
    if gs == [] then map[]
    else
      var t, g := RecordTable(arg, gs[..|gs| - 1]), gs[|gs| - 1];
      if Wanted(arg, g.key) then t[g.key := g.items] else t
  }

  /** What `asdict(arg, inp)` returns. */
  function Records(arg: seq<string>, inp: seq<string>): map<string, seq<string>>
  {
    RecordTable(arg, GroupBy(inp, Id12))
  }

  /** `asdict(arg, inp)`: one pass over the runs of lines with equal record identifiers. */
  method AsDict(arg: seq<string>, inp: seq<string>) returns (table: map<string, seq<string>>)
    ensures table == Records(arg, inp)
  {
    var groups := GroupBy(inp, Id12);
    table := map[];
    for i := 0 to |groups|
      invariant table == RecordTable(arg, groups[..i])
    {
      var g := groups[i];
      assert groups[..i + 1][..i] == groups[..i] && groups[..i + 1][i] == g;
      var id11 := Prefix(g.key, 11);
      if g.key in arg || id11 in arg {
        table := table[g.key := g.items];
      }
    }
    assert groups[..|groups|] == groups;
  }

  /** A key is present exactly when some group has it and was asked for. */
  lemma {:induction false} TableKeys(arg: seq<string>, gs: seq<Group<string, string>>)
    ensures forall id :: id in RecordTable(arg, gs) ==> Wanted(arg, id) && exists j :: 0 <= j < |gs| && gs[j].key == id
    ensures forall j :: 0 <= j < |gs| && Wanted(arg, gs[j].key) ==> gs[j].key in RecordTable(arg, gs)
    decreases |gs|
  {
    if gs != [] {
      var init := gs[..|gs| - 1];
      TableKeys(arg, init);
      assert forall j :: 0 <= j < |init| ==> init[j] == gs[j];
    }
  }

  /** Every value is the lines of some group with that key. */
  lemma {:induction false} TableValues(arg: seq<string>, gs: seq<Group<string, string>>)
    ensures forall id :: id in RecordTable(arg, gs) ==> exists j :: 0 <= j < |gs| && gs[j].key == id && gs[j].items == RecordTable(arg, gs)[id]
    decreases |gs|
  {
    if gs != [] {
      var init := gs[..|gs| - 1];
      TableValues(arg, init);
      assert forall j :: 0 <= j < |init| ==> init[j] == gs[j];
    }
  }

  /** A key holds the lines of the last group with that key. */
  lemma {:induction false} TableLastWins(arg: seq<string>, gs: seq<Group<string, string>>)
    ensures forall j :: 0 <= j < |gs| && Wanted(arg, gs[j].key) && (forall k :: j < k < |gs| ==> gs[k].key != gs[j].key) ==>
              gs[j].key in RecordTable(arg, gs) && RecordTable(arg, gs)[gs[j].key] == gs[j].items
    decreases |gs|
  {
    if gs != [] {
      var init := gs[..|gs| - 1];
      TableLastWins(arg, init);
      assert forall j :: 0 <= j < |init| ==> init[j] == gs[j];
    }
  }

  /**
   * The keys of `asdict(arg, inp)` are exactly the identifiers of the runs
   * whose 12- or 11-character identifier was asked for; each value is a
   * run of consecutive lines with that identifier that cannot be extended,
   * and it is the last such run: a later run with the same identifier
   * replaces an earlier one.
   */
  lemma RecordsSelect(arg: seq<string>, inp: seq<string>, gs: seq<Group<string, string>>)
    requires gs == GroupBy(inp, Id12)
    ensures forall id :: id in Records(arg, inp) <==> Wanted(arg, id) && exists j :: 0 <= j < |gs| && gs[j].key == id
    ensures forall j :: 0 <= j < |gs| && Wanted(arg, gs[j].key) && (forall k :: j < k < |gs| ==> gs[k].key != gs[j].key) ==>
              gs[j].key in Records(arg, inp) && Records(arg, inp)[gs[j].key] == gs[j].items
  {
    assert Records(arg, inp) == RecordTable(arg, gs);
    TableSelect(arg, gs);
  }

  /** The keys and values of the table built from any sequence of runs. */
  lemma TableSelect(arg: seq<string>, gs: seq<Group<string, string>>)
    ensures forall id :: id in RecordTable(arg, gs) <==> Wanted(arg, id) && exists j :: 0 <= j < |gs| && gs[j].key == id
    ensures forall j :: 0 <= j < |gs| && Wanted(arg, gs[j].key) && (forall k :: j < k < |gs| ==> gs[k].key != gs[j].key) ==>
              gs[j].key in RecordTable(arg, gs) && RecordTable(arg, gs)[gs[j].key] == gs[j].items
  {
    TableKeys(arg, gs);
    TableLastWins(arg, gs);
    forall id | Wanted(arg, id) && exists j :: 0 <= j < |gs| && gs[j].key == id ensures id in RecordTable(arg, gs) {
      var j :| 0 <= j < |gs| && gs[j].key == id;
      assert gs[j].key in RecordTable(arg, gs);
    }
  }

  /** Each value is a non-empty list of input lines, all with the key as identifier. */
  lemma RecordsLines(arg: seq<string>, inp: seq<string>)
    ensures forall id :: id in Records(arg, inp) ==>
              |Records(arg, inp)[id]| > 0 &&
              forall line :: line in Records(arg, inp)[id] ==> line in inp && Id12(line) == id
  {
    var gs := GroupBy(inp, Id12);
    TableValues(arg, gs);
    forall id | id in Records(arg, inp)
      ensures |Records(arg, inp)[id]| > 0 && forall line :: line in Records(arg, inp)[id] ==> line in inp && Id12(line) == id
    {
      var j :| 0 <= j < |gs| && gs[j].key == id && gs[j].items == Records(arg, inp)[id];
      UngroupHas(gs, j);
    }
  }

  lemma {:induction false} UngroupHas<K, T>(gs: seq<Group<K, T>>, j: nat)
    requires j < |gs|
    ensures forall x :: x in gs[j].items ==> x in Ungroup(gs)
    decreases |gs|
  {
    if j > 0 {
      UngroupHas(gs[1..], j - 1);
    }
  }

  /**
   * Three lines where the first and third share a record identifier that was
   * asked for and the second is another record: the third line's run
   * replaces the first's.
   */
  lemma LaterRunReplaces(arg: seq<string>, a: string, b: string, c: string)
    requires Id12(a) == Id12(c) && Id12(a) != Id12(b) && Wanted(arg, Id12(a))
    ensures Id12(a) in Records(arg, [a, b, c]) && Records(arg, [a, b, c])[Id12(a)] == [c]
  {
    var gs := [Group(Id12(a), [a]), Group(Id12(b), [b]), Group(Id12(c), [c])];
    assert gs[1..] == [gs[1], gs[2]] && gs[1..][1..] == [gs[2]] && gs[2..] == [gs[2]] && gs[2..][1..] == [];
    assert Ungroup(gs[2..]) == [c];
    assert Ungroup(gs[1..]) == [b] + [c];
    assert Ungroup(gs) == [a] + ([b] + [c]);
    assert [a] + ([b] + [c]) == [a, b, c];
    GroupByUnique([a, b, c], Id12, gs);
    RecordsSelect(arg, [a, b, c], gs);
  }

  // ---------------------------------------------------------------------
  // get_meta

  /** The characters `str.strip()` removes. */
  predicate IsSpace(c: char)
  {
    c == ' ' || c == '\t' || c == '\n' || c == '\r' || c as int == 11 || c as int == 12
  }

  /** `str.strip()`. */
  function Strip(s: string): (r: string)
    ensures |r| == 0 || (!IsSpace(r[0]) && !IsSpace(r[|r| - 1]))
    decreases |s|
  {
    if s == [] then s
    else if IsSpace(s[0]) then Strip(s[1..])
    else if IsSpace(s[|s| - 1]) then Strip(s[..|s| - 1])
    else s
  }

  /** `s[i..j]` is what is left of `s` once the whitespace before `i` and from `j` on is cut off. */
  ghost predicate StrippedAt(s: string, i: int, j: int)
  {
    0 <= i <= j <= |s| &&
    (forall k :: 0 <= k < i ==> IsSpace(s[k])) &&
    (forall k :: j <= k < |s| ==> IsSpace(s[k]))
  }

  /**
   * What `str.strip()` returns is a contiguous slice of its input, and only
   * whitespace lies outside it; with `Strip`'s own contract (no whitespace
   * at either end of the result) this determines the result.
   */
  lemma {:induction false} StripSlice(s: string)
    ensures exists i, j :: StrippedAt(s, i, j) && Strip(s) == s[i..j]
    decreases |s|
  {
    if s == [] {
      assert StrippedAt(s, 0, 0) && Strip(s) == s[0..0];
    } else if IsSpace(s[0]) {
      StripSlice(s[1..]);
      var i, j :| StrippedAt(s[1..], i, j) && Strip(s[1..]) == s[1..][i..j];
      assert Strip(s) == Strip(s[1..]) && s[1..] == s[1..|s|];
      StrippedLeading(s, i, j);
      assert StrippedAt(s, i + 1, j + 1) && Strip(s) == s[i + 1..j + 1];
    } else if IsSpace(s[|s| - 1]) {
      StripSlice(s[..|s| - 1]);
      var i, j :| StrippedAt(s[..|s| - 1], i, j) && Strip(s[..|s| - 1]) == s[..|s| - 1][i..j];
      assert Strip(s) == Strip(s[..|s| - 1]) && s[..|s| - 1] == s[0..|s| - 1];
      StrippedTrailing(s, i, j);
      assert StrippedAt(s, i, j) && Strip(s) == s[i..j];
    } else {
      assert StrippedAt(s, 0, |s|) && Strip(s) == s[0..|s|];
    }
  }

  /**
   * `str.strip()` is determined: any slice that only whitespace surrounds
   * and that neither starts nor ends with whitespace is its result.
   */
  lemma StripUnique(s: string, i: int, j: int)
    requires StrippedAt(s, i, j) && (i == j || (!IsSpace(s[i]) && !IsSpace(s[j - 1])))
    ensures Strip(s) == s[i..j]
  {
    StripSlice(s);
    var i', j' :| StrippedAt(s, i', j') && Strip(s) == s[i'..j'];
    if i < j {
      assert i' <= i && j <= j';
      assert Strip(s)[0] == s[i'] && Strip(s)[|Strip(s)| - 1] == s[j' - 1];
      assert i <= i' && j' <= j;
    } else {
      assert forall k :: 0 <= k < |s| ==> IsSpace(s[k]);
      assert |Strip(s)| == 0;
    }
  }

  /** Cutting a leading blank, then cutting `i..j` out of the rest, cuts `i + 1..j + 1` out of `s`. */
  lemma StrippedLeading(s: string, i: int, j: int)
    requires |s| > 0 && IsSpace(s[0]) && StrippedAt(s[1..], i, j)
    ensures StrippedAt(s, i + 1, j + 1) && s[1..][i..j] == s[i + 1..j + 1]
  {
    SliceOfSlice(s, 1, |s|, i, j);
    forall k | 0 <= k < i + 1 ensures IsSpace(s[k]) {
      if k > 0 {
        assert s[k] == s[1..][k - 1];
      }
    }
    forall k | j + 1 <= k < |s| ensures IsSpace(s[k]) {
      assert s[k] == s[1..][k - 1];
    }
  }

  /** Cutting a trailing blank, then cutting `i..j` out of the rest, cuts `i..j` out of `s`. */
  lemma StrippedTrailing(s: string, i: int, j: int)
    requires |s| > 0 && IsSpace(s[|s| - 1]) && StrippedAt(s[..|s| - 1], i, j)
    ensures StrippedAt(s, i, j) && s[..|s| - 1][i..j] == s[i..j]
  {
    SliceOfSlice(s, 0, |s| - 1, i, j);
    forall k | 0 <= k < i ensures IsSpace(s[k]) {
      assert s[k] == s[..|s| - 1][k];
    }
    forall k | j <= k < |s| ensures IsSpace(s[k]) {
      if k < |s| - 1 {
        assert s[k] == s[..|s| - 1][k];
      }
    }
  }

  lemma SliceOfSlice(s: string, a: nat, b: nat, i: nat, j: nat)
    requires a <= b <= |s| && i <= j <= b - a
    ensures s[a..b][i..j] == s[a + i..a + j]
  {
    forall k | 0 <= k < j - i ensures s[a..b][i..j][k] == s[a + i..a + j][k] {
      assert s[a..b][i..j][k] == s[a..b][i + k] == s[a + i + k];
    }
  }

  /** The metadata `get_meta` keeps for a station; latitude and longitude are kept as their text. */
  datatype Info = Info(name: string, lat: string, lon: string)

  /** `float()` rejected a latitude or longitude field. */
  datatype MetaError = NotAFloat(text: string)

  /**
   * One metadata line: `(line[:11], dict(name = line[12:42].strip(),
   * lat = float(line[43:49]), lon = float(line[50:57])))`, the latitude
   * converted before the longitude.
   */
  function MetaEntry(isFloat: string -> bool, line: string): Result<(string, Info), MetaError>
  {
    var lat, lon := Slice(line, 43, 49), Slice(line, 50, 57);
    if !isFloat(lat) then Err(NotAFloat(lat))
    else if !isFloat(lon) then Err(NotAFloat(lon))
    else Ok((Prefix(line, 11), Info(Strip(Slice(line, 12, 42)), lat, lon)))
  }

  function MetaParser(isFloat: string -> bool): string -> Result<(string, Info), MetaError>
  {
    line => MetaEntry(isFloat, line)
  }

  /** The 11-character prefixes of the requested identifiers: `set(map(lambda x: x[:11], l))`. */
  function Stations(l: set<string>): set<string>
  {
    set x | x in l :: Prefix(x, 11)
  }

  /** The `full` dictionary of `get_meta`: every metadata line, the later line winning. */
  function FullMeta(meta: seq<string>, isFloat: string -> bool): Result<map<string, Info>, MetaError>
  {
    match MapAll(meta, MetaParser(isFloat))
    case Err(e) => Err(e)
    case Ok(es) => Ok(Assign(es))
  }

  /** What `get_meta(l, meta)` returns, or the error it raises. */
  function Meta(l: set<string>, meta: seq<string>, isFloat: string -> bool): Result<map<string, Info>, MetaError>
  {
    match FullMeta(meta, isFloat)
    case Err(e) => Err(e)
    case Ok(full) => Ok(map id | id in Stations(l) && id in full :: full[id])
  }

  /**
   * `get_meta(l, meta)`, with `l` the keys of the record table: reads every
   * metadata line into `full`, then keeps the stations of `l` that `full` has.
   */
  method GetMeta(l: set<string>, meta: seq<string>, isFloat: string -> bool) returns (r: Result<map<string, Info>, MetaError>)
    ensures r == Meta(l, meta, isFloat)
  {
    var full := ReadMeta(meta, isFloat);
    if full.Err? {
      return Err(full.error);
    }
    var d := Restrict(full.value, Stations(l));
    assert d == map id | id in Stations(l) && id in full.value :: full.value[id];
    return Ok(d);
  }

  /** The first loop of `get_meta`: `full[line[:11]] = dict(...)` for each metadata line. */
  method ReadMeta(meta: seq<string>, isFloat: string -> bool) returns (r: Result<map<string, Info>, MetaError>)
    ensures r == FullMeta(meta, isFloat)
  {
    var full: map<string, Info> := map[];
    ghost var made: seq<(string, Info)> := [];
    for i := 0 to |meta|
      invariant MapAll(meta[..i], MetaParser(isFloat)) == Ok(made)
      invariant full == Assign(made)
    {
      var line := meta[i];
      var lat, lon := Slice(line, 43, 49), Slice(line, 50, 57);
      if !isFloat(lat) {
        MetaStopAt(meta, i, made, isFloat);
        return Err(NotAFloat(lat));
      }
      if !isFloat(lon) {
        MetaStopAt(meta, i, made, isFloat);
        return Err(NotAFloat(lon));
      }
      var entry := (Prefix(line, 11), Info(Strip(Slice(line, 12, 42)), lat, lon));
      MapAllSnoc(meta[..i], line, MetaParser(isFloat));
      assert meta[..i + 1] == meta[..i] + [line];
      AssignSnoc(made, entry);
      full := full[entry.0 := entry.1];
      made := made + [entry];
    }
    assert meta[..|meta|] == meta;
    return Ok(full);
  }

  /** The second loop of `get_meta`: `d[id11] = full[id11]` for each requested station `full` has. */
  method Restrict(full: map<string, Info>, stations: set<string>) returns (d: map<string, Info>)
    ensures forall id :: id in d <==> id in stations && id in full
    ensures forall id :: id in d ==> d[id] == full[id]
  {
    d := map[];
    var todo := stations;
    while todo != {}
      invariant todo <= stations
      invariant forall id :: id in d <==> id in stations - todo && id in full
      invariant forall id :: id in d ==> d[id] == full[id]
      decreases |todo|
    {
      var id11 :| id11 in todo;
      if id11 in full {
        d := d[id11 := full[id11]];
      }
      todo := todo - {id11};
    }
  }

  /** The first metadata line that fails decides the error. */
  lemma MetaStopAt(meta: seq<string>, i: nat, made: seq<(string, Info)>, isFloat: string -> bool)
    requires i < |meta| && MapAll(meta[..i], MetaParser(isFloat)) == Ok(made) && MetaEntry(isFloat, meta[i]).Err?
    ensures MapAll(meta, MetaParser(isFloat)) == Err(MetaEntry(isFloat, meta[i]).error)
  {
    MapAllMeaning(meta[..i], MetaParser(isFloat));
    assert forall j :: 0 <= j < i ==> meta[..i][j] == meta[j];
    MapAllFirstError(meta, MetaParser(isFloat), i);
  }

  /** `get_meta` fails exactly when some metadata line has a latitude or longitude `float()` rejects. */
  lemma MetaOk(l: set<string>, meta: seq<string>, isFloat: string -> bool)
    ensures Meta(l, meta, isFloat).Err? <==>
              exists i :: 0 <= i < |meta| && !(isFloat(Slice(meta[i], 43, 49)) && isFloat(Slice(meta[i], 50, 57)))
  {
    MapAllMeaning(meta, MetaParser(isFloat));
  }

  /** The pair each metadata line contributes to `full`. */
  lemma MetaEntries(meta: seq<string>, isFloat: string -> bool)
    requires MapAll(meta, MetaParser(isFloat)).Ok?
    ensures var es := MapAll(meta, MetaParser(isFloat)).value;
            |es| == |meta| &&
            forall i :: 0 <= i < |meta| ==>
              es[i] == (Prefix(meta[i], 11), Info(Strip(Slice(meta[i], 12, 42)), Slice(meta[i], 43, 49), Slice(meta[i], 50, 57)))
  {
    MapAllMeaning(meta, MetaParser(isFloat));
  }

  /**
   * The keys of `get_meta(l, meta)` are exactly the 11-character prefixes of
   * the elements of `l` that some metadata line starts with.
   */
  lemma MetaKeySet(l: set<string>, meta: seq<string>, isFloat: string -> bool, d: map<string, Info>)
    requires Meta(l, meta, isFloat) == Ok(d)
    ensures forall id :: id in d <==>
              (exists x :: x in l && Prefix(x, 11) == id) && exists i :: 0 <= i < |meta| && Prefix(meta[i], 11) == id
  {
    var full := FullMeta(meta, isFloat).value;
    FullMetaKeys(meta, isFloat);
    assert d == map id | id in Stations(l) && id in full :: full[id];
    forall id ensures id in d <==> id in Stations(l) && id in full {
    }
  }

  /** The keys of `full` are the station identifiers the metadata lines start with. */
  lemma FullMetaKeys(meta: seq<string>, isFloat: string -> bool)
    requires FullMeta(meta, isFloat).Ok?
    ensures forall id :: id in FullMeta(meta, isFloat).value <==> exists i :: 0 <= i < |meta| && Prefix(meta[i], 11) == id
  {
    var es := MapAll(meta, MetaParser(isFloat)).value;
    MetaEntryKeys(meta, isFloat);
    AssignKeys(es);
    forall id ensures id in Assign(es) <==> exists i :: 0 <= i < |meta| && Prefix(meta[i], 11) == id {
      if id in Assign(es) {
        var i :| 0 <= i < |es| && es[i].0 == id;
        assert Prefix(meta[i], 11) == id;
      } else {
        forall i | 0 <= i < |meta| ensures Prefix(meta[i], 11) != id {
          assert es[i].0 in Assign(es);
        }
      }
    }
  }

  /** Each metadata line's pair is keyed by the line's first eleven characters. */
  lemma MetaEntryKeys(meta: seq<string>, isFloat: string -> bool)
    requires MapAll(meta, MetaParser(isFloat)).Ok?
    ensures var es := MapAll(meta, MetaParser(isFloat)).value;
            |es| == |meta| && forall i :: 0 <= i < |meta| ==> es[i].0 == Prefix(meta[i], 11)
  {
    MetaEntries(meta, isFloat);
  }

  /** Each station kept holds the name, latitude and longitude of the last metadata line naming it. */
  lemma MetaValues(l: set<string>, meta: seq<string>, isFloat: string -> bool, d: map<string, Info>)
    requires Meta(l, meta, isFloat) == Ok(d)
    ensures forall i :: 0 <= i < |meta| && Prefix(meta[i], 11) in Stations(l) &&
                        (forall j :: i < j < |meta| ==> Prefix(meta[j], 11) != Prefix(meta[i], 11)) ==>
              Prefix(meta[i], 11) in d &&
              d[Prefix(meta[i], 11)] == Info(Strip(Slice(meta[i], 12, 42)), Slice(meta[i], 43, 49), Slice(meta[i], 50, 57))
  {
    var es := MapAll(meta, MetaParser(isFloat)).value;
    MetaEntries(meta, isFloat);
    AssignLastWins(es);
  }
}
