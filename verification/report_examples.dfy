/** A two-visit history worked through the query and the report: a video
    watch reached from the visit numbered just before it. */
module ReportExamples {
  import opened Results
  import opened Urls
  import opened History
  import opened Reporting

  /** The query returns the later visit first. */
  lemma TwoVisitsNewestFirst(earlier: Visit, later: Visit, p: Place)
    requires earlier.placeId == p.id && later.placeId == p.id
    requires Cutoff <= earlier.visitDate < later.visitDate
    ensures Extract([earlier, later], [p]) == [JoinRow(later, p), JoinRow(earlier, p)]
  {
    TwoVisitsJoined(earlier, later, p);
    TwoRowsSorted(JoinRow(earlier, p), JoinRow(later, p));
  }

  /** Both visits survive the filter, in table order. */
  lemma TwoVisitsJoined(earlier: Visit, later: Visit, p: Place)
    requires earlier.placeId == p.id && later.placeId == p.id
    requires Cutoff <= earlier.visitDate && Cutoff <= later.visitDate
    ensures JoinWhere([earlier, later], [p], Cutoff) == [JoinRow(earlier, p), JoinRow(later, p)]
  {
    assert [earlier, later][..1] == [earlier];
    assert [earlier][..0] == [];
    assert [p][..0] == [];
    assert VisitRows(earlier, [p], Cutoff) == [JoinRow(earlier, p)];
    assert VisitRows(later, [p], Cutoff) == [JoinRow(later, p)];
    assert JoinWhere([earlier], [p], Cutoff) == [JoinRow(earlier, p)];
  }

  /** Sorting swaps two rows given oldest first. */
  lemma TwoRowsSorted(b: Row, a: Row)
    requires b.visitDate < a.visitDate
    ensures SortNewestFirst([b, a]) == [a, b]
  {
    assert [b, a][1..] == [a];
    assert [a][1..] == [];
    assert SortNewestFirst([a]) == [a];
  }

  /** Visit 10 follows visit 9, so no blank line separates them; visit 9 does
      not follow visit 8, so a blank line closes the report. The watch URL of
      visit 10 brings its video line. */
  lemma TwoRowReport(a: Row, b: Row, render: Renderer, fetch: Fetcher)
    requires a.id == 10 && a.fromVisit == 9 && b.id == 9 && b.fromVisit == 0
    requires VideoIdOf(a).Some? && VideoIdOf(b).None?
    requires RowLines(a, render, fetch).Ok? && RowLines(b, render, fetch).Ok?
    ensures var la, lb := RowLines(a, render, fetch).value, RowLines(b, render, fetch).value;
      && |la| == 2 && |lb| == 2
      && Report([a, b], render, fetch) == Ok([Header(), la[0], la[1], lb[0], BlankLine])
  {
    RowLineCount(a, render, fetch);
    RowLineCount(b, render, fetch);
    RowBreakLine(b, render, fetch);
    var la, lb := RowLines(a, render, fetch).value, RowLines(b, render, fetch).value;
    TwoRowBody(a, b, render, fetch);
    ReportIsHeaderAndBody([a, b], render, fetch);
    FiveLines(Header(), la, lb);
  }

  lemma FiveLines(h: string, la: seq<string>, lb: seq<string>)
    requires |la| == 2 && |lb| == 2
    ensures [h] + (la + lb) == [h, la[0], la[1], lb[0], lb[1]]
  {
  }

  lemma TwoRowBody(a: Row, b: Row, render: Renderer, fetch: Fetcher)
    requires RowLines(a, render, fetch).Ok? && RowLines(b, render, fetch).Ok?
    ensures Body([a, b], render, fetch) == Ok(RowLines(a, render, fetch).value + RowLines(b, render, fetch).value)
  {
    var rows := [a, b];
    assert rows[..2] == rows && rows[..1] == [a] && rows[..0] == [];
    var la, lb := RowLines(a, render, fetch).value, RowLines(b, render, fetch).value;
    BodyStep(rows, 0, render, fetch);
    BodyStep(rows, 1, render, fetch);
    assert Body(rows[..0], render, fetch) == Ok([]);
    assert Body(rows[..1], render, fetch).value == [] + la == la;
    assert Body(rows[..2], render, fetch).value == la + lb;
  }
}
