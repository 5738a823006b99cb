/**
 * The integer layout that `plot` in stationplot.py computes before it
 * writes any SVG: the year and temperature extents of the selected records,
 * the positions of the decade ticks on the horizontal axis, and the check
 * that every record gets a colour of its own.
 *
 * A table maps each 12-character record identifier to its decoded rows.
 */
module StationPlot {
  import opened Outcomes
  import opened StationSegments

  type Table = map<string, seq<Row>>

  /** Why `plot` stops before drawing. */
  datatype PlotError =
    | NoData                      // `raise Error('No data found ...')`
    | HighestUnset                // `assert highest > -9999` fails
    | LowestUnset                 // `assert lowest < 9999` fails
    | TooManyRecords(count: nat)  // `assert len(table) <= len(colour_list)` fails

  /** `minyear`, `maxyear`, `highest`, `lowest`, in tenths of a degree for the last two. */
  datatype Extents = Extents(minYear: int, maxYear: int, highest: int, lowest: int)

  /** The values the loop starts from. */
  const Start := Extents(9999, -9999, -9999, 9999)

  // ---------------------------------------------------------------------
  // What the extents are

  /** Some row of the table has year `y`. */
  ghost predicate YearIn(t: Table, y: int)
  {
    exists k, i :: k in t && 0 <= i < |t[k]| && t[k][i].year == y
  }

  /** `d` is a valid (not `BAD`) monthly value of some row of the table. */
  ghost predicate DatumIn(t: Table, d: int)
  {
    d != BAD && exists k, i, m :: k in t && 0 <= i < |t[k]| && 0 <= m < |t[k][i].data| && t[k][i].data[m] == d
  }

  /**
   * `e` is what the loop leaves after visiting every row of `t`: the least
   * of 9999 and all years, the greatest of -9999 and all years, the
   * greatest of -9999 and all valid values, the least of 9999 and all valid
   * values.
   */
  ghost predicate Summarises(t: Table, e: Extents)
  {
    && e.minYear <= Start.minYear && (forall y :: YearIn(t, y) ==> e.minYear <= y)
    && (e.minYear == Start.minYear || YearIn(t, e.minYear))
    && e.maxYear >= Start.maxYear && (forall y :: YearIn(t, y) ==> y <= e.maxYear)
    && (e.maxYear == Start.maxYear || YearIn(t, e.maxYear))
    && e.highest >= Start.highest && (forall d :: DatumIn(t, d) ==> d <= e.highest)
    && (e.highest == Start.highest || DatumIn(t, e.highest))
    && e.lowest <= Start.lowest && (forall d :: DatumIn(t, d) ==> e.lowest <= d)
    && (e.lowest == Start.lowest || DatumIn(t, e.lowest))
  }

  lemma YearInEmpty(t: Table, k: string, y: int)
    requires k !in t
    ensures YearIn(t[k := []], y) <==> YearIn(t, y)
  {
    if YearIn(t[k := []], y) {
      var k', i :| k' in t[k := []] && 0 <= i < |t[k := []][k']| && t[k := []][k'][i].year == y;
      assert k' in t && t[k'][i].year == y;
    }
    if YearIn(t, y) {
      var k', i :| k' in t && 0 <= i < |t[k']| && t[k'][i].year == y;
      assert t[k := []][k'] == t[k'];
    }
  }

  lemma DatumInEmpty(t: Table, k: string, d: int)
    requires k !in t
    ensures DatumIn(t[k := []], d) <==> DatumIn(t, d)
  {
    if DatumIn(t[k := []], d) {
      var k', i, m :| k' in t[k := []] && 0 <= i < |t[k := []][k']| && 0 <= m < |t[k := []][k'][i].data| && t[k := []][k'][i].data[m] == d;
      assert k' in t && t[k'][i].data[m] == d;
    }
    if DatumIn(t, d) {
      var k', i, m :| k' in t && 0 <= i < |t[k']| && 0 <= m < |t[k'][i].data| && t[k'][i].data[m] == d;
      assert t[k := []][k'] == t[k'];
    }
  }

  /** Appending a row to record `k` adds exactly its year. */
  lemma YearInSnoc(t: Table, k: string, rs: seq<Row>, r: Row, y: int)
    ensures YearIn(t[k := rs + [r]], y) <==> YearIn(t[k := rs], y) || y == r.year
  {
    var t0, t1 := t[k := rs], t[k := rs + [r]];
    if YearIn(t1, y) {
      var k', i :| k' in t1 && 0 <= i < |t1[k']| && t1[k'][i].year == y;
      if k' == k && i < |rs| {
        assert t0[k'][i] == t1[k'][i];
      } else if k' != k {
        assert t0[k'] == t1[k'];
      }
    }
    if YearIn(t0, y) {
      var k', i :| k' in t0 && 0 <= i < |t0[k']| && t0[k'][i].year == y;
      assert t1[k'][i] == t0[k'][i];
    }
    if y == r.year {
      assert t1[k][|rs|] == r;
    }
  }

  /** Appending a row to record `k` adds exactly its valid values. */
  lemma DatumInSnoc(t: Table, k: string, rs: seq<Row>, r: Row, d: int)
    ensures DatumIn(t[k := rs + [r]], d) <==> DatumIn(t[k := rs], d) || (d != BAD && d in r.data)
  {
    var t0, t1 := t[k := rs], t[k := rs + [r]];
    if DatumIn(t1, d) {
      var k', i, m :| k' in t1 && 0 <= i < |t1[k']| && 0 <= m < |t1[k'][i].data| && t1[k'][i].data[m] == d;
      if k' == k && i < |rs| {
        assert t0[k'][i] == t1[k'][i];
      } else if k' != k {
        assert t0[k'] == t1[k'];
      } else {
        assert t1[k'][i] == r;
      }
    }
    if DatumIn(t0, d) {
      var k', i, m :| k' in t0 && 0 <= i < |t0[k']| && 0 <= m < |t0[k'][i].data| && t0[k'][i].data[m] == d;
      assert t1[k'][i] == t0[k'][i];
    }
    if d != BAD && d in r.data {
      var m :| 0 <= m < |r.data| && r.data[m] == d;
      assert t1[k][|rs|].data[m] == d;
    }
  }

  /** A record with no rows changes nothing. */
  lemma EmptyRecord(t: Table, k: string, e: Extents)
    requires k !in t && Summarises(t, e)
    ensures Summarises(t[k := []], e)
  {
    var empty := t[k := []];
    forall y ensures YearIn(empty, y) <==> YearIn(t, y) {
      YearInEmpty(t, k, y);
    }
    forall d ensures DatumIn(empty, d) <==> DatumIn(t, d) {
      DatumInEmpty(t, k, d);
    }
  }

  /** `minyear = min(minyear, year)`, `maxyear = max(maxyear, year)` for a new row. */
  lemma YearStep(t: Table, k: string, rs: seq<Row>, year: int, e: Extents)
    requires Summarises(t[k := rs], e)
    ensures Summarises(t[k := rs + [Row(year, [])]],
                       e.(minYear := if year < e.minYear then year else e.minYear,
                          maxYear := if year > e.maxYear then year else e.maxYear))
  {
    var before, after := t[k := rs], t[k := rs + [Row(year, [])]];
    forall y ensures YearIn(after, y) <==> YearIn(before, y) || y == year {
      YearInSnoc(t, k, rs, Row(year, []), y);
    }
    forall d ensures DatumIn(after, d) <==> DatumIn(before, d) {
      DatumInSnoc(t, k, rs, Row(year, []), d);
    }
  }

  /** The update for one more value of the row being read: `BAD` is skipped. */
  lemma DatumStep(t: Table, k: string, rs: seq<Row>, year: int, data: seq<int>, datum: int, e: Extents)
    requires Summarises(t[k := rs + [Row(year, data)]], e)
    ensures Summarises(t[k := rs + [Row(year, data + [datum])]],
                       if datum == BAD then e
                       else e.(highest := if datum > e.highest then datum else e.highest,
                               lowest := if datum < e.lowest then datum else e.lowest))
  {
    var before, after := t[k := rs + [Row(year, data)]], t[k := rs + [Row(year, data + [datum])]];
    forall y ensures YearIn(after, y) <==> YearIn(before, y) {
      YearInSnoc(t, k, rs, Row(year, data), y);
      YearInSnoc(t, k, rs, Row(year, data + [datum]), y);
    }
    forall d ensures DatumIn(after, d) <==> DatumIn(before, d) || (d != BAD && d == datum) {
      DatumInSnoc(t, k, rs, Row(year, data), d);
      DatumInSnoc(t, k, rs, Row(year, data + [datum]), d);
      assert d in data + [datum] <==> d in data || d == datum;
    }
  }

  // ---------------------------------------------------------------------
  // The loop

  /** The loop body for one record: every row's year, then its values. */
  method ScanRecord(ghost t: Table, ghost k: string, rows: seq<Row>, e0: Extents) returns (e: Extents)
    requires Summarises(t[k := []], e0)
    ensures Summarises(t[k := rows], e)
  {
    e := e0;
    var i := 0;
    while i < |rows|
      invariant 0 <= i <= |rows|
      invariant Summarises(t[k := rows[..i]], e)
    {
      var year := rows[i].year;
      YearStep(t, k, rows[..i], year, e);
      e := e.(minYear := if year < e.minYear then year else e.minYear,
              maxYear := if year > e.maxYear then year else e.maxYear);
      var data := rows[i].data;
      var m := 0;
      while m < |data|
        invariant 0 <= m <= |data|
        invariant Summarises(t[k := rows[..i] + [Row(year, data[..m])]], e)
      {
        var datum := data[m];
        DatumStep(t, k, rows[..i], year, data[..m], datum, e);
        assert data[..m] + [datum] == data[..m + 1];
        if datum != BAD {
          e := e.(highest := if datum > e.highest then datum else e.highest,
                  lowest := if datum < e.lowest then datum else e.lowest);
        }
        m := m + 1;
      }
      assert data[..m] == data;
      assert rows[..i] + [Row(year, data)] == rows[..i + 1];
      i := i + 1;
    }
    assert rows[..i] == rows;
  }

  /** The records of `table` the loop has already visited: all but those still to do. */
  ghost function Visited(table: Table, todo: set<string>): Table
  {
    map k | k in table && k !in todo :: table[k]
  }

  lemma VisitedStep(table: Table, todo: set<string>, k: string)
    requires k in todo && k in table
    ensures k !in Visited(table, todo)
    ensures Visited(table, todo - {k}) == Visited(table, todo)[k := table[k]]
  {
  }

  lemma VisitedAll(table: Table)
    ensures Visited(table, {}) == table
  {
  }

  /** The loop over `table.items()`, visiting the records in whatever order the dictionary yields them. */
  method ScanTable(table: Table) returns (e: Extents)
    ensures Summarises(table, e)
  {
    e := Start;
    var todo := table.Keys;
    while todo != {}
      invariant todo <= table.Keys
      invariant Summarises(Visited(table, todo), e)
      decreases |todo|
    {
      var k :| k in todo;
      VisitedStep(table, todo, k);
      EmptyRecord(Visited(table, todo), k, e);
      e := ScanRecord(Visited(table, todo), k, table[k], e);
      todo := todo - {k};
    }
    VisitedAll(table);
  }

  /**
   * The start of `plot`: an empty table is an error; otherwise visit
   * every row of every record and fail when no valid value lies above
   * -9999, or none below 9999.
   */
  method FindExtents(table: Table) returns (r: Result<Extents, PlotError>)
    ensures table == map[] <==> r == Err(NoData)
    ensures table != map[] ==>
              (r == Err(HighestUnset) <==> forall d :: DatumIn(table, d) ==> d <= Start.highest)
    ensures table != map[] && (exists d :: DatumIn(table, d) && d > Start.highest) ==>
              (r == Err(LowestUnset) <==> forall d :: DatumIn(table, d) ==> d >= Start.lowest)
    ensures r.Ok? <==> table != map[] &&
                       (exists d :: DatumIn(table, d) && d > Start.highest) &&
                       (exists d :: DatumIn(table, d) && d < Start.lowest)
    ensures r.Err? ==> r.error in {NoData, HighestUnset, LowestUnset}
    ensures r.Ok? ==> Summarises(table, r.value)
    ensures r.Ok? ==> DatumIn(table, r.value.highest) && DatumIn(table, r.value.lowest)
  {
    if table == map[] {
      return Err(NoData);
    }
    var e := ScanTable(table);
    if !(e.highest > Start.highest) {
      return Err(HighestUnset);
    }
    if !(e.lowest < Start.lowest) {
      return Err(LowestUnset);
    }
    return Ok(e);
  }

  // ---------------------------------------------------------------------
  // Decade ticks

  /** Python's `range(start, stop, step)` for a positive step. */
  function Range(start: int, stop: int, step: int): seq<int>
    requires step > 0
    decreases stop - start
  {
    if start >= stop then [] else [start] + Range(start + step, stop, step)
  }

  /** The `i`-th element is `start + i * step`, and every such value below `stop` is there. */
  lemma {:induction false} RangeMeaning(start: int, stop: int, step: int)
    requires step > 0
    ensures forall i :: 0 <= i < |Range(start, stop, step)| ==>
              Range(start, stop, step)[i] == start + i * step && Range(start, stop, step)[i] < stop
    ensures forall j :: 0 <= j && start + j * step < stop ==> j < |Range(start, stop, step)|
    decreases stop - start
  {
    if start < stop {
      var r := Range(start, stop, step);
      var rest := Range(start + step, stop, step);
      RangeMeaning(start + step, stop, step);
      assert r == [start] + rest;
      forall i | 0 < i < |r| ensures r[i] == start + i * step {
        assert r[i] == rest[i - 1] == start + step + (i - 1) * step;
      }
      forall j | 0 < j && start + j * step < stop ensures j < |r| {
        assert start + step + (j - 1) * step < stop;
      }
    }
  }

  /** `range(s, w + 1, 10)` with `w = limyear - minyear` and `s = (-minyear) % 10`. */
  function DecadeTicks(minYear: int, limYear: int): seq<int>
  {
    Range((-minYear) % 10, limYear - minYear + 1, 10)
  }

  /**
   * The ticks lie on the axis, from 0 to `w`; each falls on a year that is
   * a multiple of 10; consecutive ticks are 10 years apart; and every
   * such year on the axis gets a tick.
   */
  lemma TicksMeaning(minYear: int, limYear: int)
    ensures var ticks, w := DecadeTicks(minYear, limYear), limYear - minYear;
            && (forall i :: 0 <= i < |ticks| ==> 0 <= ticks[i] <= w && (minYear + ticks[i]) % 10 == 0)
            && (forall i :: 0 < i < |ticks| ==> ticks[i] == ticks[i - 1] + 10)
            && (forall x :: 0 <= x <= w && (minYear + x) % 10 == 0 ==> x in ticks)
  {
    var s, w := (-minYear) % 10, limYear - minYear;
    var ticks := DecadeTicks(minYear, limYear);
    RangeMeaning(s, w + 1, 10);
    assert (minYear + s) % 10 == 0;
    forall i | 0 <= i < |ticks| ensures (minYear + ticks[i]) % 10 == 0 {
      assert minYear + ticks[i] == (minYear + s) + 10 * i;
    }
    forall x | 0 <= x <= w && (minYear + x) % 10 == 0 ensures x in ticks {
      var j := (x - s) / 10;
      assert x - s == (minYear + x) - (minYear + s);
      assert (x - s) % 10 == 0;
      assert x == s + j * 10;
      assert ticks[j] == x;
    }
  }

  // ---------------------------------------------------------------------
  // Colours

  /** `colour_list`: one stroke colour per record, in this order. */
  const ColourList: seq<string> := [
    "blue", "deeppink", "green", "orange", "olive", "navy", "aqua", "fuchsia", "gray",
    "#1f77b4", "#33a02c", "#fb9a99", "#cab2d6", "#e31a1c", "#fdbf6f", "#ff7f00",
    "#6a3d9a", "#b2df8a", "#a6cee3"]

  /**
   * `assert len(table) <= len(colour_list)` followed by
   * `zip(table, colour_list)`: `ids` are the table's identifiers in the
   * dictionary's order.
   */
  function RecordColours(ids: seq<string>): (r: Result<seq<(string, string)>, PlotError>)
    ensures r.Ok? <==> |ids| <= 19
    ensures r.Err? ==> r.error == TooManyRecords(|ids|)
  {
    if |ids| > |ColourList| then Err(TooManyRecords(|ids|))
    else Ok(seq(|ids|, i requires 0 <= i < |ids| => (ids[i], ColourList[i])))
  }

  /** Each record is paired with a colour, and no two records share one. */
  lemma ColoursDistinct(ids: seq<string>)
    requires RecordColours(ids).Ok?
    ensures var pairs := RecordColours(ids).value;
            && |pairs| == |ids|
            && (forall i :: 0 <= i < |ids| ==> pairs[i].0 == ids[i])
            && (forall i, j :: 0 <= i < j < |ids| ==> pairs[i].1 != pairs[j].1)
  {
    assert forall i, j :: 0 <= i < j < |ColourList| ==> ColourList[i] != ColourList[j];
  }
}
