/**
 * `aplot` from stationplot.py: a station record, one row per year, becomes
 * the runs of consecutive valid monthly values that are drawn as separate
 * lines. A missing value (`BAD`) or a missing year breaks a run.
 *
 * Rows arrive decoded: a year and its monthly values, in tenths of a degree.
 * A point is kept as (year, month index, datum); the plotted x coordinate
 * `year + (month + 0.5) / 12` is a function of the first two.
 */
module StationSegments {
  import opened Outcomes
  import opened Itertools

  /** The missing-value sentinel of v2.mean. */
  const BAD: int := -9999

  /** A decoded v2.mean row. */
  datatype Row = Row(year: int, data: seq<int>)

  /** `point(year, month, datum)`. */
  datatype Point = Point(year: int, month: int, datum: int)

  /** The `assert year > prev` that fails. */
  datatype AplotError = YearsNotIncreasing(prev: int, year: int)

  /** The points of one row, month by month. */
  function RowPoints(row: Row): seq<Point>
  {
    seq(|row.data|, i requires 0 <= i < |row.data| => Point(row.year, i, row.data[i]))
  }

  /** The points of all rows, in row order: the stream without any break markers. */
  function AllPoints(rows: seq<Row>): seq<Point>
    decreases |rows|
  {
    if rows == [] then [] else RowPoints(rows[0]) + AllPoints(rows[1..])
  }

  /**
   * Whether the previous year takes part in the checks. The source tests
   * `if prev:`, which is false for a previous year of 0 as well as for none;
   * `asWritten` selects that reading, otherwise only "no previous row" skips.
   */
  predicate Checked(prev: Option<int>, asWritten: bool)
  {
    prev.Some? && (!asWritten || prev.value != 0)
  }

  /**
   * `asstream()` from the row after `prev`: each row must have a later year
   * than the previous one, a whole missing year puts one `BAD` point at the
   * previous year's January, then the row's points follow.
   */
  function StreamFrom(rows: seq<Row>, prev: Option<int>, asWritten: bool): Result<seq<Point>, AplotError>
    decreases |rows|
  {
    if rows == [] then Ok([])
    else
      var row := rows[0];
      if Checked(prev, asWritten) && !(row.year > prev.value) then Err(YearsNotIncreasing(prev.value, row.year))
      else
        match StreamFrom(rows[1..], Some(row.year), asWritten)
        case Err(e) => Err(e)
        case Ok(rest) => Ok(Gap(prev, row.year, asWritten) + RowPoints(row) + rest)
  }

  /** The break marker before a row: one `BAD` point when a whole year is missing. */
  function Gap(prev: Option<int>, year: int, asWritten: bool): seq<Point>
  {
    if Checked(prev, asWritten) && prev.value + 1 < year then [Point(prev.value, 0, BAD)] else []
  }

  /** One step of the stream: the break marker, the row's points, then the rest. */
  lemma StreamFromStep(rows: seq<Row>, prev: Option<int>, asWritten: bool)
    requires rows != [] && StreamFrom(rows, prev, asWritten).Ok?
    ensures StreamFrom(rows[1..], Some(rows[0].year), asWritten).Ok?
    ensures !Checked(prev, asWritten) || rows[0].year > prev.value
    ensures StreamFrom(rows, prev, asWritten).value ==
              Gap(prev, rows[0].year, asWritten) + RowPoints(rows[0]) + StreamFrom(rows[1..], Some(rows[0].year), asWritten).value
  {
  }

  /** The stream with the year check applied after every row. */
  function Stream(rows: seq<Row>): Result<seq<Point>, AplotError>
  {
    StreamFrom(rows, None, false)
  }

  /** The stream as the source computes it, where a year-0 row disables the next row's checks. */
  function StreamAsWritten(rows: seq<Row>): Result<seq<Point>, AplotError>
  {
    StreamFrom(rows, None, true)
  }

  predicate IsBad(p: Point)
  {
    p.datum == BAD
  }

  /** The groups of valid points, each as a list: `if isbad: continue`, else `yield list(block)`. */
  function GoodRuns(gs: seq<Group<bool, Point>>): seq<seq<Point>>
    decreases |gs|
  {
    if gs == [] then [] else (if gs[0].key then [] else [gs[0].items]) + GoodRuns(gs[1..])
  }

  /** `groupby(stream, lambda x: x[1] == BAD)`, keeping the valid runs. */
  function Segments(s: seq<Point>): seq<seq<Point>>
  {
    GoodRuns(GroupBy(s, IsBad))
  }

  /** `aplot(rows)`, with the year check applied after every row. */
  function Aplot(rows: seq<Row>): Result<seq<seq<Point>>, AplotError>
  {
    match Stream(rows)
    case Err(e) => Err(e)
    case Ok(s) => Ok(Segments(s))
  }

  /** `aplot(rows)` as the source computes it. */
  function AplotAsWritten(rows: seq<Row>): Result<seq<seq<Point>>, AplotError>
  {
    match StreamAsWritten(rows)
    case Err(e) => Err(e)
    case Ok(s) => Ok(Segments(s))
  }

  /** The valid points of a stream, in order. */
  function Good(s: seq<Point>): seq<Point>
    decreases |s|
  {
    if s == [] then [] else (if IsBad(s[0]) then [] else [s[0]]) + Good(s[1..])
  }

  function Concat(segs: seq<seq<Point>>): seq<Point>
    decreases |segs|
  {
    if segs == [] then [] else segs[0] + Concat(segs[1..])
  }

  // ---------------------------------------------------------------------
  // Segments are clean and lose no valid point

  lemma {:induction false} GoodConcat(a: seq<Point>, b: seq<Point>)
    ensures Good(a + b) == Good(a) + Good(b)
    decreases |a|
  {
    if a != [] {
      GoodConcat(a[1..], b);
      assert (a + b)[0] == a[0] && (a + b)[1..] == a[1..] + b;
      var h := if IsBad(a[0]) then [] else [a[0]];
      assert Good(a) == h + Good(a[1..]);
      assert Good(a + b) == h + Good(a[1..] + b);
    } else {
      assert a + b == b;
    }
  }

  lemma {:induction false} GoodAll(s: seq<Point>, bad: bool)
    requires forall p :: p in s ==> IsBad(p) == bad
    ensures Good(s) == if bad then [] else s
    decreases |s|
  {
    if s != [] {
      GoodAll(s[1..], bad);
    }
  }

  /** Every run is non-empty, holds no `BAD` point and is one of the groups. */
  lemma {:induction false} GoodRunsClean(gs: seq<Group<bool, Point>>)
    requires Homogeneous(gs, IsBad)
    ensures forall i :: 0 <= i < |GoodRuns(gs)| ==>
              |GoodRuns(gs)[i]| > 0 && forall p :: p in GoodRuns(gs)[i] ==> !IsBad(p)
    ensures forall i :: 0 <= i < |GoodRuns(gs)| ==> exists j :: 0 <= j < |gs| && gs[j].items == GoodRuns(gs)[i] && !gs[j].key
    decreases |gs|
  {
    if gs != [] {
      assert Homogeneous(gs[1..], IsBad) by {
        forall j | 0 <= j < |gs[1..]| ensures |gs[1..][j].items| > 0 && forall x :: x in gs[1..][j].items ==> IsBad(x) == gs[1..][j].key {
          assert gs[1..][j] == gs[j + 1];
        }
      }
      GoodRunsClean(gs[1..]);
      var head := if gs[0].key then [] else [gs[0].items];
      assert GoodRuns(gs) == head + GoodRuns(gs[1..]);
      forall i | 0 <= i < |GoodRuns(gs)| ensures exists j :: 0 <= j < |gs| && gs[j].items == GoodRuns(gs)[i] && !gs[j].key {
        if i < |head| {
          assert GoodRuns(gs)[i] == gs[0].items;
        } else {
          assert GoodRuns(gs)[i] == GoodRuns(gs[1..])[i - |head|];
          var j :| 0 <= j < |gs[1..]| && gs[1..][j].items == GoodRuns(gs[1..])[i - |head|] && !gs[1..][j].key;
          assert gs[j + 1] == gs[1..][j];
        }
      }
    } else {
      assert GoodRuns(gs) == [];
    }
  }

  /** Laid end to end, the runs are exactly the valid points of the grouped stream. */
  lemma {:induction false} GoodRunsConcat(gs: seq<Group<bool, Point>>)
    requires Homogeneous(gs, IsBad)
    ensures Concat(GoodRuns(gs)) == Good(Ungroup(gs))
    decreases |gs|
  {
    if gs != [] {
      assert Homogeneous(gs[1..], IsBad) by {
        forall j | 0 <= j < |gs[1..]| ensures |gs[1..][j].items| > 0 && forall x :: x in gs[1..][j].items ==> IsBad(x) == gs[1..][j].key {
          assert gs[1..][j] == gs[j + 1];
        }
      }
      GoodRunsConcat(gs[1..]);
      GoodConcat(gs[0].items, Ungroup(gs[1..]));
      GoodAll(gs[0].items, gs[0].key);
      var head := if gs[0].key then [] else [gs[0].items];
      ConcatAppend(head, GoodRuns(gs[1..]));
      assert Concat(head) == if gs[0].key then [] else gs[0].items by {
        if !gs[0].key {
          assert Concat(head) == gs[0].items + Concat([]);
        }
      }
    }
  }

  lemma {:induction false} ConcatAppend(a: seq<seq<Point>>, b: seq<seq<Point>>)
    ensures Concat(a + b) == Concat(a) + Concat(b)
    decreases |a|
  {
    if a != [] {
      ConcatAppend(a[1..], b);
      assert (a + b)[0] == a[0] && (a + b)[1..] == a[1..] + b;
      assert Concat(a + b) == a[0] + Concat(a[1..] + b);
    } else {
      assert a + b == b;
    }
  }

  /** The break markers are the only points the stream adds: its valid points are those of the rows. */
  lemma {:induction false} StreamGood(rows: seq<Row>, prev: Option<int>, asWritten: bool)
    requires StreamFrom(rows, prev, asWritten).Ok?
    ensures Good(StreamFrom(rows, prev, asWritten).value) == Good(AllPoints(rows))
    decreases |rows|
  {
    if rows != [] {
      var row := rows[0];
      StreamFromStep(rows, prev, asWritten);
      StreamGood(rows[1..], Some(row.year), asWritten);
      var gap, ps := Gap(prev, row.year, asWritten), RowPoints(row);
      var rest := StreamFrom(rows[1..], Some(row.year), asWritten).value;
      assert Good(gap + ps) == Good(ps) by {
        GoodConcat(gap, ps);
        GapGood(prev, row.year, asWritten);
      }
      assert Good(gap + ps + rest) == Good(ps) + Good(rest) by {
        GoodConcat(gap + ps, rest);
      }
      assert Good(AllPoints(rows)) == Good(ps) + Good(AllPoints(rows[1..])) by {
        assert AllPoints(rows) == ps + AllPoints(rows[1..]);
        GoodConcat(ps, AllPoints(rows[1..]));
      }
    }
  }

  /** A break marker holds no valid point. */
  lemma GapGood(prev: Option<int>, year: int, asWritten: bool)
    ensures Good(Gap(prev, year, asWritten)) == []
  {
    GoodAll(Gap(prev, year, asWritten), true);
  }

  /**
   * Every segment `aplot` yields is non-empty and holds no `BAD` datum, and
   * laid end to end the segments are the valid points of the rows, row by
   * row and month by month.
   */
  lemma AplotSegments(rows: seq<Row>, segs: seq<seq<Point>>)
    requires Aplot(rows) == Ok(segs)
    ensures forall i :: 0 <= i < |segs| ==> |segs[i]| > 0 && forall p :: p in segs[i] ==> p.datum != BAD
    ensures Concat(segs) == Good(AllPoints(rows))
  {
    var s := Stream(rows).value;
    GoodRunsClean(GroupBy(s, IsBad));
    GoodRunsConcat(GroupBy(s, IsBad));
    StreamGood(rows, None, false);
  }

  /**
   * The same holds of `aplot` as the source computes it: the year-0 slip in
   * `if prev:` only changes where the break markers go, never which valid
   * points are yielded.
   */
  lemma AplotAsWrittenSegments(rows: seq<Row>, segs: seq<seq<Point>>)
    requires AplotAsWritten(rows) == Ok(segs)
    ensures forall i :: 0 <= i < |segs| ==> |segs[i]| > 0 && forall p :: p in segs[i] ==> p.datum != BAD
    ensures Concat(segs) == Good(AllPoints(rows))
  {
    var s := StreamAsWritten(rows).value;
    GoodRunsClean(GroupBy(s, IsBad));
    GoodRunsConcat(GroupBy(s, IsBad));
    StreamGood(rows, None, true);
  }

  /** With twelve values per row, point `12 * r + m` of the rows is month `m` of row `r`. */
  lemma {:induction false} AllPointsIndex(rows: seq<Row>)
    requires forall r :: 0 <= r < |rows| ==> |rows[r].data| == 12
    ensures |AllPoints(rows)| == 12 * |rows|
    ensures forall r, m :: 0 <= r < |rows| && 0 <= m < 12 ==>
              AllPoints(rows)[12 * r + m] == Point(rows[r].year, m, rows[r].data[m])
    decreases |rows|
  {
    if rows != [] {
      AllPointsIndex(rows[1..]);
      forall r, m | 0 <= r < |rows| && 0 <= m < 12
        ensures AllPoints(rows)[12 * r + m] == Point(rows[r].year, m, rows[r].data[m])
      {
        if r > 0 {
          assert AllPoints(rows)[12 * r + m] == AllPoints(rows[1..])[12 * (r - 1) + m];
          assert rows[1..][r - 1] == rows[r];
        }
      }
    }
  }

  // ---------------------------------------------------------------------
  // The year check

  /** Years strictly increase from one row to the next. */
  predicate Increasing(rows: seq<Row>)
  {
    forall i :: 0 < i < |rows| ==> rows[i - 1].year < rows[i].year
  }

  lemma {:induction false} StreamFromOk(rows: seq<Row>, prev: Option<int>)
    ensures StreamFrom(rows, prev, false).Ok? <==>
              Increasing(rows) && (prev.Some? && rows != [] ==> prev.value < rows[0].year)
    decreases |rows|
  {
    if rows != [] {
      StreamFromOk(rows[1..], Some(rows[0].year));
      assert Increasing(rows) <==> Increasing(rows[1..]) && (|rows| > 1 ==> rows[0].year < rows[1].year) by {
        if Increasing(rows[1..]) && (|rows| > 1 ==> rows[0].year < rows[1].year) {
          forall i | 0 < i < |rows| ensures rows[i - 1].year < rows[i].year {
            if i > 1 { assert rows[1..][i - 2] == rows[i - 1] && rows[1..][i - 1] == rows[i]; }
          }
        }
        if Increasing(rows) {
          forall i | 0 < i < |rows[1..]| ensures rows[1..][i - 1].year < rows[1..][i].year {
            assert rows[1..][i - 1] == rows[i] && rows[1..][i] == rows[i + 1];
          }
        }
      }
    }
  }

  /** `aplot` fails exactly when some row's year is not greater than the previous row's. */
  lemma AplotOk(rows: seq<Row>)
    ensures Aplot(rows).Ok? <==> Increasing(rows)
  {
    StreamFromOk(rows, None);
  }

  // ---------------------------------------------------------------------
  // Runs are contiguous in time

  /** `q` is the month right after `p`. */
  predicate NextMonth(p: Point, q: Point)
  {
    (q.year == p.year && q.month == p.month + 1) || (q.year == p.year + 1 && p.month == 11 && q.month == 0)
  }

  /** Neighbouring points, when both are valid, are neighbouring months. */
  predicate Steps(s: seq<Point>)
  {
    forall k :: 0 <= k < |s| - 1 ==> StepOk(s[k], s[k + 1])
  }

  predicate StepOk(p: Point, q: Point)
  {
    IsBad(p) || IsBad(q) || NextMonth(p, q)
  }

  lemma StepsConcat(a: seq<Point>, b: seq<Point>)
    requires Steps(a) && Steps(b)
    requires a != [] && b != [] ==> StepOk(a[|a| - 1], b[0])
    ensures Steps(a + b)
  {
    forall k | 0 <= k < |a + b| - 1 ensures StepOk((a + b)[k], (a + b)[k + 1]) {
      if k < |a| - 1 {
      } else if k == |a| - 1 {
      } else {
        assert (a + b)[k] == b[k - |a|] && (a + b)[k + 1] == b[k - |a| + 1];
      }
    }
  }

  lemma {:induction false} StreamSteps(rows: seq<Row>, prev: Option<int>)
    requires forall r :: 0 <= r < |rows| ==> |rows[r].data| == 12
    requires StreamFrom(rows, prev, false).Ok?
    ensures Steps(StreamFrom(rows, prev, false).value)
    ensures rows != [] ==>
              var s := StreamFrom(rows, prev, false).value;
              |s| > 0 && (prev.Some? ==> IsBad(s[0]) || (s[0].year == prev.value + 1 && s[0].month == 0))
    decreases |rows|
  {
    if rows != [] {
      var row := rows[0];
      StreamFromStep(rows, prev, false);
      StreamSteps(rows[1..], Some(row.year));
      var gap := Gap(prev, row.year, false);
      var rest := StreamFrom(rows[1..], Some(row.year), false).value;
      var ps := RowPoints(row);
      assert |ps| == 12;
      assert Steps(gap);
      assert Steps(ps) by {
        forall k | 0 <= k < |ps| - 1 ensures StepOk(ps[k], ps[k + 1]) {
          assert NextMonth(ps[k], ps[k + 1]);
        }
      }
      StepsConcat(gap, ps);
      assert (gap + ps)[|gap + ps| - 1] == ps[11];
      StepsConcat(gap + ps, rest);
    }
  }

  /**
   * With twelve values per row, each segment runs month by month without a
   * hole: consecutive points of a segment are consecutive months, so rows
   * separated by a missing year never share a segment.
   */
  lemma AplotContiguous(rows: seq<Row>, segs: seq<seq<Point>>)
    requires forall r :: 0 <= r < |rows| ==> |rows[r].data| == 12
    requires Aplot(rows) == Ok(segs)
    ensures forall i, k :: 0 <= i < |segs| && 0 <= k < |segs[i]| - 1 ==> NextMonth(segs[i][k], segs[i][k + 1])
  {
    var s := Stream(rows).value;
    var gs := GroupBy(s, IsBad);
    StreamSteps(rows, None);
    GroupsKeepPairs(gs, StepOk);
    GoodRunsClean(gs);
    forall i, k | 0 <= i < |segs| && 0 <= k < |segs[i]| - 1 ensures NextMonth(segs[i][k], segs[i][k + 1]) {
      var j :| 0 <= j < |gs| && gs[j].items == segs[i] && !gs[j].key;
      assert segs[i][k] in gs[j].items && segs[i][k + 1] in gs[j].items;
    }
  }

  // ---------------------------------------------------------------------
  // `if prev:` and year 0

  /** The reading of the source and the intended one agree when no row has year 0. */
  lemma {:induction false} StreamAgrees(rows: seq<Row>, prev: Option<int>)
    requires forall r :: 0 <= r < |rows| ==> rows[r].year != 0
    requires prev.Some? ==> prev.value != 0
    ensures StreamFrom(rows, prev, true) == StreamFrom(rows, prev, false)
    decreases |rows|
  {
    if rows != [] {
      StreamAgrees(rows[1..], Some(rows[0].year));
    }
  }

  lemma AplotAgrees(rows: seq<Row>)
    requires forall r :: 0 <= r < |rows| ==> rows[r].year != 0
    ensures AplotAsWritten(rows) == Aplot(rows)
  {
    StreamAgrees(rows, None);
  }

  /** All points valid: the whole stream is one segment. */
  lemma OneSegment(s: seq<Point>)
    requires s != [] && forall p :: p in s ==> !IsBad(p)
    ensures Segments(s) == [s]
  {
    var gs := [Group(false, s)];
    assert gs[1..] == [];
    assert Ungroup(gs) == s + [];
    GroupByUnique(s, IsBad, gs);
    assert GoodRuns(gs) == [s] + GoodRuns(gs[1..]);
  }

  /** Two valid runs around one `BAD` point: two segments. */
  lemma TwoSegments(a: seq<Point>, b: seq<Point>, bad: Point)
    requires a != [] && b != [] && IsBad(bad)
    requires forall p :: p in a ==> !IsBad(p)
    requires forall p :: p in b ==> !IsBad(p)
    ensures Segments(a + [bad] + b) == [a, b]
  {
    var gs := [Group(false, a), Group(true, [bad]), Group(false, b)];
    assert gs[1..] == [gs[1], gs[2]] && gs[1..][1..] == [gs[2]] && gs[2..] == [gs[2]] && gs[2..][1..] == [];
    assert Ungroup(gs[2..]) == b + [];
    assert Ungroup(gs[1..]) == [bad] + (b + []);
    assert Ungroup(gs) == a + ([bad] + (b + []));
    assert a + ([bad] + (b + [])) == a + [bad] + b;
    GroupByUnique(a + [bad] + b, IsBad, gs);
    assert GoodRuns(gs[2..]) == [b] + GoodRuns(gs[2..][1..]);
    assert GoodRuns(gs[1..]) == [] + GoodRuns(gs[1..][1..]);
    assert GoodRuns(gs) == [a] + GoodRuns(gs[1..]);
  }

  /**
   * A year-0 row followed by a year-5 row: as written, the four missing
   * years do not break the line and year 5 continues straight from year 0;
   * with the check applied after every row, they are two segments.
   */
  lemma YearZeroJoinsGap()
    ensures var rows := [Row(0, [10]), Row(5, [10])];
            AplotAsWritten(rows) == Ok([[Point(0, 0, 10), Point(5, 0, 10)]]) &&
            Aplot(rows) == Ok([[Point(0, 0, 10)], [Point(5, 0, 10)]])
  {
    var r0, r1 := Row(0, [10]), Row(5, [10]);
    var rows := [r0, r1];
    assert rows[1..] == [r1] && [r1][1..] == [];
    assert RowPoints(r0) == [Point(0, 0, 10)] && RowPoints(r1) == [Point(5, 0, 10)];
    var none: seq<Point> := [];
    assert StreamFrom([r1], Some(0), true) == Ok(none + [Point(5, 0, 10)] + none);
    assert StreamAsWritten(rows) == Ok(none + [Point(0, 0, 10)] + (none + [Point(5, 0, 10)] + none));
    assert none + [Point(0, 0, 10)] + (none + [Point(5, 0, 10)] + none) == [Point(0, 0, 10), Point(5, 0, 10)];
    OneSegment([Point(0, 0, 10), Point(5, 0, 10)]);
    assert StreamFrom([r1], Some(0), false) == Ok([Point(0, 0, BAD)] + [Point(5, 0, 10)] + none);
    assert Stream(rows) == Ok(none + [Point(0, 0, 10)] + ([Point(0, 0, BAD)] + [Point(5, 0, 10)] + none));
    assert none + [Point(0, 0, 10)] + ([Point(0, 0, BAD)] + [Point(5, 0, 10)] + none) ==
           [Point(0, 0, 10)] + [Point(0, 0, BAD)] + [Point(5, 0, 10)];
    TwoSegments([Point(0, 0, 10)], [Point(5, 0, 10)], Point(0, 0, BAD));
  }

  /** As written, a year-0 row also lets the next row go back in time without failing the check. */
  lemma YearZeroSkipsCheck()
    ensures AplotAsWritten([Row(0, [10]), Row(-3, [10])]).Ok?
    ensures Aplot([Row(0, [10]), Row(-3, [10])]) == Err(YearsNotIncreasing(0, -3))
  {
    var rows := [Row(0, [10]), Row(-3, [10])];
    assert rows[1..] == [Row(-3, [10])] && rows[1..][1..] == [];
  }
}
