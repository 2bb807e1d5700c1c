/** The history query: visits joined to the places they belong to, those from
    the cut-off on, newest first. Tables are sequences of records; the
    database is not part of this model. */
module History {

  /** A `moz_historyvisits` row, reduced to the columns the query reads. */
  datatype Visit = Visit(id: int, fromVisit: int, placeId: int, visitDate: int, visitType: int)

  /** A `moz_places` row, reduced to the columns the query reads. */
  datatype Place = Place(id: int, url: string)

  /** A result row: the visit's columns with the place's URL in between. */
  datatype Row = Row(id: int, fromVisit: int, url: string, visitDate: int, visitType: int)

  /** 2020-04-01 00:00 UTC in microseconds since the epoch. */
  const Cutoff := 1_585_699_200_000_000

  function JoinRow(v: Visit, p: Place): Row {
    Row(v.id, v.fromVisit, p.url, v.visitDate, v.visitType)
  }

  /** The `WHERE` and `ON` conditions together. */
  predicate Selected(v: Visit, p: Place, cutoff: int) {
    v.visitDate >= cutoff && v.placeId == p.id
  }

  /** The rows one visit contributes: one per place with its id, in table order. */
  function VisitRows(v: Visit, places: seq<Place>, cutoff: int): (r: seq<Row>)
    ensures forall row :: row in r <==>
      exists k :: 0 <= k < |places| && Selected(v, places[k], cutoff) && row == JoinRow(v, places[k])
    ensures |r| <= |places|
    ensures forall j :: 0 <= j < |r| ==> r[j].visitDate >= cutoff
  {
    if |places| == 0 then []
    else
      var front := VisitRows(v, places[..|places| - 1], cutoff);
      var p := places[|places| - 1];
      assert forall k :: 0 <= k < |places| - 1 ==> places[..|places| - 1][k] == places[k];
      if Selected(v, p, cutoff) then front + [JoinRow(v, p)] else front
  }

  /** The filtered inner join before ordering, visit by visit. */
  function JoinWhere(visits: seq<Visit>, places: seq<Place>, cutoff: int): (r: seq<Row>)
    ensures forall row :: row in r <==>
      exists i, k :: 0 <= i < |visits| && 0 <= k < |places|
        && Selected(visits[i], places[k], cutoff) && row == JoinRow(visits[i], places[k])
    ensures forall j :: 0 <= j < |r| ==> r[j].visitDate >= cutoff
  {
    if |visits| == 0 then []
    else
      var front := JoinWhere(visits[..|visits| - 1], places, cutoff);
      var v := visits[|visits| - 1];
      assert forall i :: 0 <= i < |visits| - 1 ==> visits[..|visits| - 1][i] == visits[i];
      front + VisitRows(v, places, cutoff)
  }

  /** `ORDER BY visit_date DESC`. */
  predicate NewestFirst(rows: seq<Row>) {
    forall i, j :: 0 <= i < j < |rows| ==> rows[i].visitDate >= rows[j].visitDate
  }

  /** Places one row into a newest-first sequence, ahead of rows of equal date. */
  function Insert(row: Row, rows: seq<Row>): (r: seq<Row>)
    requires NewestFirst(rows)
    ensures NewestFirst(r)
    ensures multiset(r) == multiset(rows) + multiset{row}
    ensures |r| > 0 && (r[0] == row || (|rows| > 0 && r[0] == rows[0]))
    decreases |rows|
  {
    if |rows| == 0 || row.visitDate >= rows[0].visitDate then [row] + rows
    else
      var rest := Insert(row, rows[1..]);
      assert rows == [rows[0]] + rows[1..];
      [rows[0]] + rest
  }

  /** A newest-first arrangement of the rows; rows of equal date keep their
      relative order. */
  function SortNewestFirst(rows: seq<Row>): (r: seq<Row>)
    ensures NewestFirst(r)
    ensures multiset(r) == multiset(rows)
    decreases |rows|
  {
    if |rows| == 0 then []
    else
      var r := Insert(rows[0], SortNewestFirst(rows[1..]));
      assert rows == [rows[0]] + rows[1..];
      r
  }

  /** The query of the report: visits from the cut-off on, joined to their
      places, newest first. */
  function Extract(visits: seq<Visit>, places: seq<Place>): (r: seq<Row>)
    ensures NewestFirst(r)
    ensures multiset(r) == multiset(JoinWhere(visits, places, Cutoff))
    ensures forall row :: row in r ==> row.visitDate >= Cutoff
  {
    var joined := JoinWhere(visits, places, Cutoff);
    var r := SortNewestFirst(joined);
    forall row | row in r
      ensures row.visitDate >= Cutoff
    {
      assert row in multiset(joined);
    }
    r
  }

  /** A row is in the result exactly when some visit from the cut-off on and
      some place with that visit's place id combine into it. */
  lemma ExtractMembers(visits: seq<Visit>, places: seq<Place>, row: Row)
    ensures row in Extract(visits, places) <==>
      exists i, k :: 0 <= i < |visits| && 0 <= k < |places|
        && visits[i].visitDate >= Cutoff && visits[i].placeId == places[k].id
        && row == JoinRow(visits[i], places[k])
  {
    var r := Extract(visits, places);
    assert row in r <==> row in multiset(r);
    assert row in JoinWhere(visits, places, Cutoff) <==> row in multiset(JoinWhere(visits, places, Cutoff));
  }

  /** The places a visit joins to, by position in the table. */
  ghost function PlaceMatches(v: Visit, places: seq<Place>, cutoff: int): set<int> {
    set k | 0 <= k < |places| && Selected(v, places[k], cutoff)
  }

  /** The (visit, place) position pairs the `ON` and `WHERE` conditions accept. */
  ghost function Matches(visits: seq<Visit>, places: seq<Place>, cutoff: int): set<(int, int)> {
    set i, k | 0 <= i < |visits| && 0 <= k < |places| && Selected(visits[i], places[k], cutoff) :: (i, k)
  }

  /** A visit yields one row per place it joins to. */
  lemma {:induction false} JoinRowCount(v: Visit, places: seq<Place>, cutoff: int)
    ensures |VisitRows(v, places, cutoff)| == |PlaceMatches(v, places, cutoff)|
  {
    if |places| > 0 {
      JoinRowCount(v, places[..|places| - 1], cutoff);
      PlaceStep(v, places, cutoff);
    }
  }

  /** The last place adds its position when the visit joins to it. */
  lemma PlaceStep(v: Visit, places: seq<Place>, cutoff: int)
    requires |places| > 0
    ensures var n := |places|;
      PlaceMatches(v, places, cutoff)
      == PlaceMatches(v, places[..n - 1], cutoff) + (if Selected(v, places[n - 1], cutoff) then {n - 1} else {})
  {
    var front := places[..|places| - 1];
    assert forall k :: 0 <= k < |front| ==> front[k] == places[k];
  }

  /** The places a visit joins to, each paired with the visit's position `i`. */
  ghost function TaggedMatches(i: int, v: Visit, places: seq<Place>, cutoff: int): set<(int, int)> {
    set k | 0 <= k < |places| && Selected(v, places[k], cutoff) :: (i, k)
  }

  /** The last place adds its pair when the visit joins to it. */
  lemma TaggedStep(i: int, v: Visit, places: seq<Place>, cutoff: int)
    requires |places| > 0
    ensures var n := |places|;
      TaggedMatches(i, v, places, cutoff)
      == TaggedMatches(i, v, places[..n - 1], cutoff) + (if Selected(v, places[n - 1], cutoff) then {(i, n - 1)} else {})
  {
    var front := places[..|places| - 1];
    assert forall k :: 0 <= k < |front| ==> front[k] == places[k];
  }

  /** Pairing with one fixed visit position keeps the count of places. */
  lemma {:induction false} TagCount(i: int, v: Visit, places: seq<Place>, cutoff: int)
    ensures |TaggedMatches(i, v, places, cutoff)| == |PlaceMatches(v, places, cutoff)|
  {
    if |places| > 0 {
      var n := |places|;
      TagCount(i, v, places[..n - 1], cutoff);
      PlaceStep(v, places, cutoff);
      TaggedStep(i, v, places, cutoff);
    }
  }

  /** The join holds one row per accepted (visit, place) pair: no pair is
      dropped and none is repeated. */
  lemma {:induction false} JoinWhereCount(visits: seq<Visit>, places: seq<Place>, cutoff: int)
    ensures |JoinWhere(visits, places, cutoff)| == |Matches(visits, places, cutoff)|
  {
    if |visits| > 0 {
      var n := |visits|;
      var front := visits[..n - 1];
      JoinWhereCount(front, places, cutoff);
      JoinRowCount(visits[n - 1], places, cutoff);
      TagCount(n - 1, visits[n - 1], places, cutoff);
      MatchesStep(visits, places, cutoff);
    }
  }

  /** The last visit adds its own pairs, none of which an earlier visit has. */
  lemma MatchesStep(visits: seq<Visit>, places: seq<Place>, cutoff: int)
    requires |visits| > 0
    ensures var n := |visits|;
      var last := TaggedMatches(n - 1, visits[n - 1], places, cutoff);
      && Matches(visits, places, cutoff) == Matches(visits[..n - 1], places, cutoff) + last
      && Matches(visits[..n - 1], places, cutoff) !! last
  {
    var n := |visits|;
    var front := visits[..n - 1];
    assert forall i :: 0 <= i < n - 1 ==> front[i] == visits[i];
  }

  /** The query result holds one row per accepted (visit, place) pair. */
  lemma ExtractCount(visits: seq<Visit>, places: seq<Place>)
    ensures |Extract(visits, places)| == |Matches(visits, places, Cutoff)|
  {
    JoinWhereCount(visits, places, Cutoff);
    assert |multiset(Extract(visits, places))| == |multiset(JoinWhere(visits, places, Cutoff))|;
  }
}
