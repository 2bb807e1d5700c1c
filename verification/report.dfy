/** The report: a header line, then per history row its data line, an
    optional video line and an optional session-break line. The video lookup
    is an injected function from a video id to the service's reply. */
module Reporting {
  import opened Results
  import opened Text
  import opened Urls
  import opened Transitions
  import opened Calendar
  import opened History

  /** What aborts the run before anything is written. */
  datatype Error =
    | DateOutOfRange(timestamp: int)   // `datetime` cannot represent the visit time
    | UnknownTransition(code: int)     // `Transition(code)` raises
    | MissingVideoItem(videoId: string) // a positive result count with no items

  /** The part of an item's `snippet` the report reads. */
  datatype Snippet = Snippet(title: string, channelTitle: string)

  /** The part of the video service's JSON reply the report reads. */
  datatype VideoResponse = VideoResponse(totalResults: int, items: seq<Snippet>)

  /** How a visit time becomes text; the script uses `GetDate`. */
  type Renderer = int -> Option<string>

  /** The video service: its reply for a video id. */
  type Fetcher = string -> VideoResponse

  /** A video's title and channel name. */
  datatype VideoData = VideoData(title: string, channel: string)

  /** `get_video_data` after the request: the first item when the service
      reports any result, two empty strings when it reports none. */
  function ReadVideoData(reply: VideoResponse, videoId: string): (r: Result<VideoData, Error>)
    ensures reply.totalResults <= 0 ==> r == Ok(VideoData("", ""))
    ensures r.Err? <==> reply.totalResults > 0 && |reply.items| == 0
    ensures r.Ok? && reply.totalResults > 0 ==>
      r.value == VideoData(reply.items[0].title, reply.items[0].channelTitle)
  {
    if reply.totalResults > 0 then
      if |reply.items| == 0 then Err(MissingVideoItem(videoId))
      else Ok(VideoData(reply.items[0].title, reply.items[0].channelTitle))
    else Ok(VideoData("", ""))
  }

  // ---------------------------------------------------------------------------
  // Lines

  const IdWidth := 4
  const TimeWidth := 16

  /** The header: every title centred in its column's width, `URL` as is. */
  function Header(): string {
    Center("ID", IdWidth) + "| " + "PREV" + " | " + Center("TIME", TimeWidth) + " | "
    + Center("TRANSITION", NameWidth) + " | " + "URL" + "\n"
  }

  /** One visit: id and previous id centred in four columns, the time, the
      transition name centred in thirteen, and the URL. */
  function DataLine(id: int, fromVisit: int, date: string, name: string, url: string): (r: string)
    ensures r != BlankLine
  {
    Center(IntToString(id), IdWidth) + "| " + Center(IntToString(fromVisit), IdWidth) + " | "
    + date + " | " + Center(name, NameWidth) + " | " + url + "\n"
  }

  function VideoLine(v: VideoData): (r: string)
    ensures r != BlankLine
  {
    "\t Channel Name: " + v.channel + " Title: " + v.title + "\n"
  }

  const BlankLine := "\n"

  /** The chain heuristic: a visit that does not follow the one numbered just
      before it starts a new session. */
  predicate IsSessionBreak(row: Row) {
    row.id - 1 != row.fromVisit
  }

  /** The video id the row's normalised URL carries, if it is a watch URL. */
  function VideoIdOf(row: Row): Option<string> {
    IsYoutube(ProcessLink(row.url))
  }

  /** The time and transition of a row, each of which may fail; the time is
      rendered first. */
  function RowFields(row: Row, render: Renderer): (r: Result<(string, Transition), Error>)
    ensures r.Err? <==> render(row.visitDate).None? || FromCode(row.visitType).None?
    ensures r.Err? ==> r.error == if render(row.visitDate).None? then DateOutOfRange(row.visitDate)
                                  else UnknownTransition(row.visitType)
    ensures r.Ok? ==> Some(r.value.0) == render(row.visitDate) && Some(r.value.1) == FromCode(row.visitType)
  {
    match render(row.visitDate)
    case None => Err(DateOutOfRange(row.visitDate))
    case Some(date) =>
      match FromCode(row.visitType)
      case None => Err(UnknownTransition(row.visitType))
      case Some(t) => Ok((date, t))
  }

  /** The video line of a watch URL, none for any other URL. */
  function VideoLines(url: string, fetch: Fetcher): (r: Result<seq<string>, Error>)
    ensures r.Err? <==> IsYoutube(url).Some? && ReadVideoData(fetch(IsYoutube(url).value), IsYoutube(url).value).Err?
    ensures r.Ok? && IsYoutube(url).None? ==> r.value == []
    ensures r.Ok? && IsYoutube(url).Some? ==>
      r.value == [VideoLine(ReadVideoData(fetch(IsYoutube(url).value), IsYoutube(url).value).value)]
  {
    match IsYoutube(url)
    case None => Ok([])
    case Some(id) =>
      match ReadVideoData(fetch(id), id)
      case Err(e) => Err(e)
      case Ok(v) => Ok([VideoLine(v)])
  }

  function BreakLines(row: Row): seq<string> {
    if IsSessionBreak(row) then [BlankLine] else []
  }

  /** The lines one row adds, or the error that stops the run there: the time
      is rendered first, then the transition, then the video is looked up. */
  function RowLines(row: Row, render: Renderer, fetch: Fetcher): (r: Result<seq<string>, Error>)
    ensures r.Err? <==> RowFields(row, render).Err? || VideoLines(ProcessLink(row.url), fetch).Err?
    ensures r.Err? ==> r.error == if RowFields(row, render).Err? then RowFields(row, render).error
                                  else VideoLines(ProcessLink(row.url), fetch).error
    ensures r.Ok? ==> r.value == [DataLine(row.id, row.fromVisit, RowFields(row, render).value.0,
                                           RowFields(row, render).value.1.Name(), ProcessLink(row.url))]
                                 + VideoLines(ProcessLink(row.url), fetch).value + BreakLines(row)
  {
    var url := ProcessLink(row.url);
    match RowFields(row, render)
    case Err(e) => Err(e)
    case Ok((date, t)) =>
      match VideoLines(url, fetch)
      case Err(e) => Err(e)
      case Ok(video) => Ok([DataLine(row.id, row.fromVisit, date, t.Name(), url)] + video + BreakLines(row))
  }

  // ---------------------------------------------------------------------------
  // The whole report

  function CountVideos(rows: seq<Row>): nat {
    if |rows| == 0 then 0
    else CountVideos(rows[..|rows| - 1]) + (if VideoIdOf(rows[|rows| - 1]).Some? then 1 else 0)
  }

  function CountBreaks(rows: seq<Row>): nat {
    if |rows| == 0 then 0
    else CountBreaks(rows[..|rows| - 1]) + (if IsSessionBreak(rows[|rows| - 1]) then 1 else 0)
  }

  /** Whether row `i` is the first to fail. */
  predicate FirstFailure(rows: seq<Row>, render: Renderer, fetch: Fetcher, i: int) {
    && 0 <= i < |rows|
    && RowLines(rows[i], render, fetch).Err?
    && forall j :: 0 <= j < i ==> RowLines(rows[j], render, fetch).Ok?
  }

  /** The lines after the header, row by row in order; the first failing row
      aborts the whole report. */
  function Body(rows: seq<Row>, render: Renderer, fetch: Fetcher): (r: Result<seq<string>, Error>)
    ensures r.Ok? <==> forall i :: 0 <= i < |rows| ==> RowLines(rows[i], render, fetch).Ok?
    ensures r.Err? ==> exists i :: FirstFailure(rows, render, fetch, i) && r.error == RowLines(rows[i], render, fetch).error
    decreases |rows|
  {
    if |rows| == 0 then Ok([])
    else
      var front := rows[..|rows| - 1];
      var last := rows[|rows| - 1];
      match Body(front, render, fetch)
      case Err(e) =>
        var i :| FirstFailure(front, render, fetch, i) && e == RowLines(front[i], render, fetch).error;
        FailureExtends(rows, render, fetch, i);
        Err(e)
      case Ok(lines) =>
        FrontOk(rows, front, render, fetch);
        match RowLines(last, render, fetch)
        case Err(e) => Err(e)
        case Ok(more) => Ok(lines + more)
  }

  /** A first failure among all but the last row is one among all rows. */
  lemma FailureExtends(rows: seq<Row>, render: Renderer, fetch: Fetcher, i: int)
    requires |rows| > 0 && FirstFailure(rows[..|rows| - 1], render, fetch, i)
    ensures FirstFailure(rows, render, fetch, i)
    ensures RowLines(rows[..|rows| - 1][i], render, fetch) == RowLines(rows[i], render, fetch)
  {
    var front := rows[..|rows| - 1];
    assert forall j :: 0 <= j < i ==> front[j] == rows[j];
  }

  /** The rows ahead of the last go through when those of the front do. */
  lemma FrontOk(rows: seq<Row>, front: seq<Row>, render: Renderer, fetch: Fetcher)
    requires |rows| > 0 && front == rows[..|rows| - 1]
    requires forall i :: 0 <= i < |front| ==> RowLines(front[i], render, fetch).Ok?
    ensures forall i :: 0 <= i < |rows| - 1 ==> RowLines(rows[i], render, fetch).Ok?
  {
    forall i | 0 <= i < |rows| - 1
      ensures RowLines(rows[i], render, fetch).Ok?
    {
      assert front[i] == rows[i];
    }
  }

  /** A row that goes through adds one line, one more when its normalised URL
      is a watch URL, and one more when it breaks the session. */
  lemma RowLineCount(row: Row, render: Renderer, fetch: Fetcher)
    requires RowLines(row, render, fetch).Ok?
    ensures |RowLines(row, render, fetch).value|
         == 1 + (if VideoIdOf(row).Some? then 1 else 0) + (if IsSessionBreak(row) then 1 else 0)
  {
    var video := VideoLines(ProcessLink(row.url), fetch).value;
    assert |video| == if VideoIdOf(row).Some? then 1 else 0;
  }

  /** Its first line is the data line of the rendered time, the transition's
      name and the normalised URL; the video line, if any, comes next. */
  lemma RowDataLine(row: Row, render: Renderer, fetch: Fetcher)
    requires RowLines(row, render, fetch).Ok?
    ensures var lines := RowLines(row, render, fetch).value;
      && lines[0] == DataLine(row.id, row.fromVisit, render(row.visitDate).value,
                              FromCode(row.visitType).value.Name(), ProcessLink(row.url))
      && (VideoIdOf(row).Some? ==>
            |lines| > 1 && lines[1] == VideoLine(ReadVideoData(fetch(VideoIdOf(row).value), VideoIdOf(row).value).value))
  {
    var url := ProcessLink(row.url);
    var lines := RowLines(row, render, fetch).value;
    var data := DataLine(row.id, row.fromVisit, RowFields(row, render).value.0, RowFields(row, render).value.1.Name(), url);
    assert lines == [data] + VideoLines(url, fetch).value + BreakLines(row);
  }

  /** Its last line is blank exactly when it breaks the session. */
  lemma RowBreakLine(row: Row, render: Renderer, fetch: Fetcher)
    requires RowLines(row, render, fetch).Ok?
    ensures var lines := RowLines(row, render, fetch).value;
      lines[|lines| - 1] == BlankLine <==> IsSessionBreak(row)
  {
    var url := ProcessLink(row.url);
    var lines := RowLines(row, render, fetch).value;
    var data := DataLine(row.id, row.fromVisit, RowFields(row, render).value.0, RowFields(row, render).value.1.Name(), url);
    var video := VideoLines(url, fetch).value;
    assert lines == [data] + video + BreakLines(row);
    if !IsSessionBreak(row) {
      assert lines[|lines| - 1] in [data] + video;
    }
  }

  /** Header, then one data line per row, one video line per watch URL and
      one blank line per session break. */
  lemma {:induction false} BodyLineCount(rows: seq<Row>, render: Renderer, fetch: Fetcher)
    requires Body(rows, render, fetch).Ok?
    ensures |Body(rows, render, fetch).value| == |rows| + CountVideos(rows) + CountBreaks(rows)
    decreases |rows|
  {
    if |rows| > 0 {
      var front := rows[..|rows| - 1];
      BodyLineCount(front, render, fetch);
      RowLineCount(rows[|rows| - 1], render, fetch);
    }
  }

  /** Which error stops a row, in the script's order: a time `datetime`
      cannot represent, then a transition code `Transition` rejects, then a
      watch URL whose reply counts results but lists no items. A row with
      none of the three goes through. */
  lemma RowErrors(row: Row, render: Renderer, fetch: Fetcher)
    ensures RowLines(row, render, fetch) == Err(DateOutOfRange(row.visitDate))
        <==> render(row.visitDate).None?
    ensures RowLines(row, render, fetch) == Err(UnknownTransition(row.visitType))
        <==> render(row.visitDate).Some? && FromCode(row.visitType).None?
    ensures VideoIdOf(row).Some? && RowLines(row, render, fetch) == Err(MissingVideoItem(VideoIdOf(row).value))
        <==> && render(row.visitDate).Some? && FromCode(row.visitType).Some? && VideoIdOf(row).Some?
             && fetch(VideoIdOf(row).value).totalResults > 0 && |fetch(VideoIdOf(row).value).items| == 0
    ensures RowLines(row, render, fetch).Ok?
        <==> && render(row.visitDate).Some? && FromCode(row.visitType).Some?
             && (VideoIdOf(row).Some? ==>
                   fetch(VideoIdOf(row).value).totalResults <= 0 || |fetch(VideoIdOf(row).value).items| > 0)
  {
  }

  /** A watch URL's line names the first item's channel and title when the
      reply counts any result, and two empty strings when it counts none. */
  lemma RowVideoLine(row: Row, render: Renderer, fetch: Fetcher)
    requires RowLines(row, render, fetch).Ok? && VideoIdOf(row).Some?
    ensures var reply := fetch(VideoIdOf(row).value);
      var lines := RowLines(row, render, fetch).value;
      && |lines| > 1
      && lines[1] == VideoLine(if reply.totalResults > 0
                               then VideoData(reply.items[0].title, reply.items[0].channelTitle)
                               else VideoData("", ""))
  {
    var id := VideoIdOf(row).value;
    var reply := fetch(id);
    RowDataLine(row, render, fetch);
    RowErrors(row, render, fetch);
    var v := ReadVideoData(reply, id).value;
    if reply.totalResults > 0 {
      assert v == VideoData(reply.items[0].title, reply.items[0].channelTitle);
    } else {
      assert v == VideoData("", "");
    }
  }

  /** A row that goes through has a rendered time and a known transition. */
  lemma RowLinesOk(row: Row, render: Renderer, fetch: Fetcher)
    requires RowLines(row, render, fetch).Ok?
    ensures render(row.visitDate).Some? && FromCode(row.visitType).Some?
  {
  }

  /** The number of lines after the header that row `i`'s data line follows. */
  function LinesBefore(rows: seq<Row>, i: nat): nat
    requires i <= |rows|
  {
    i + CountVideos(rows[..i]) + CountBreaks(rows[..i])
  }

  /** The report grows by appending: the body of a prefix of the rows is a
      prefix of the body of all of them. */
  lemma {:induction false} BodyPrefix(rows: seq<Row>, n: nat, render: Renderer, fetch: Fetcher)
    requires Body(rows, render, fetch).Ok? && n <= |rows|
    ensures Body(rows[..n], render, fetch).Ok?
    ensures Body(rows[..n], render, fetch).value <= Body(rows, render, fetch).value
    decreases |rows|
  {
    if n < |rows| {
      var front := rows[..|rows| - 1];
      assert front[..n] == rows[..n];
      BodyPrefix(front, n, render, fetch);
    } else {
      assert rows[..n] == rows;
    }
  }

  /** The body of the first `i + 1` rows is that of the first `i` followed by
      row `i`'s lines. */
  lemma BodyStep(rows: seq<Row>, i: nat, render: Renderer, fetch: Fetcher)
    requires i < |rows| && Body(rows[..i + 1], render, fetch).Ok?
    ensures Body(rows[..i], render, fetch).Ok? && RowLines(rows[i], render, fetch).Ok?
    ensures Body(rows[..i + 1], render, fetch).value == Body(rows[..i], render, fetch).value + RowLines(rows[i], render, fetch).value
  {
    var pre := rows[..i + 1];
    assert pre[..i] == rows[..i];
    assert pre[i] == rows[i];
  }

  /** Row `i`'s data line sits right after the header and the lines of the
      rows before it. */
  lemma BodyDataLineAt(rows: seq<Row>, i: nat, render: Renderer, fetch: Fetcher)
    requires Body(rows, render, fetch).Ok? && i < |rows|
    ensures var lines := Body(rows, render, fetch).value;
      && LinesBefore(rows, i) < |lines|
      && lines[LinesBefore(rows, i)]
         == DataLine(rows[i].id, rows[i].fromVisit, render(rows[i].visitDate).value,
                     FromCode(rows[i].visitType).value.Name(), ProcessLink(rows[i].url))
  {
    BodyAround(rows, i, render, fetch);
    RowDataLine(rows[i], render, fetch);
    ElementAfterPrefix(Body(rows, render, fetch).value, Body(rows[..i], render, fetch).value,
                       RowLines(rows[i], render, fetch).value);
  }

  /** Row `i`'s lines follow the `LinesBefore(rows, i)` lines of the rows
      ahead of it. */
  lemma BodyAround(rows: seq<Row>, i: nat, render: Renderer, fetch: Fetcher)
    requires Body(rows, render, fetch).Ok? && i < |rows|
    ensures Body(rows[..i], render, fetch).Ok? && RowLines(rows[i], render, fetch).Ok?
    ensures Body(rows[..i], render, fetch).value + RowLines(rows[i], render, fetch).value
         <= Body(rows, render, fetch).value
    ensures |Body(rows[..i], render, fetch).value| == LinesBefore(rows, i)
  {
    BodyPrefix(rows, i + 1, render, fetch);
    BodyStep(rows, i, render, fetch);
    BodyLineCount(rows[..i], render, fetch);
  }

  lemma ElementAfterPrefix(all: seq<string>, before: seq<string>, next: seq<string>)
    requires before + next <= all && |next| > 0
    ensures |before| < |all| && all[|before|] == next[0]
  {
    assert all[|before|] == (before + next)[|before|];
  }

  /** The number of blank lines. */
  function CountBlank(lines: seq<string>): nat {
    if |lines| == 0 then 0
    else CountBlank(lines[..|lines| - 1]) + (if lines[|lines| - 1] == BlankLine then 1 else 0)
  }

  lemma {:induction false} CountBlankAppend(a: seq<string>, b: seq<string>)
    ensures CountBlank(a + b) == CountBlank(a) + CountBlank(b)
    decreases |b|
  {
    if |b| == 0 {
      assert a + b == a;
    } else {
      assert (a + b)[..|a + b| - 1] == a + b[..|b| - 1];
      CountBlankAppend(a, b[..|b| - 1]);
    }
  }

  lemma {:induction false} NoBlankLines(lines: seq<string>)
    requires forall k :: 0 <= k < |lines| ==> lines[k] != BlankLine
    ensures CountBlank(lines) == 0
    decreases |lines|
  {
    if |lines| > 0 {
      NoBlankLines(lines[..|lines| - 1]);
    }
  }

  /** A data line and video lines contribute no blank line. */
  lemma BlanksAfterLines(data: string, video: seq<string>, tail: seq<string>)
    requires data != BlankLine && forall k :: 0 <= k < |video| ==> video[k] != BlankLine
    ensures CountBlank([data] + video + tail) == CountBlank(tail)
  {
    NoBlankLines([data] + video);
    CountBlankAppend([data] + video, tail);
  }

  lemma OneBlank()
    ensures CountBlank([BlankLine]) == 1 && CountBlank([]) == 0
  {
    assert [BlankLine][..0] == [];
  }

  /** A row's only possible blank line is its session break. */
  lemma RowBlankLines(row: Row, render: Renderer, fetch: Fetcher)
    requires RowLines(row, render, fetch).Ok?
    ensures CountBlank(RowLines(row, render, fetch).value) == if IsSessionBreak(row) then 1 else 0
  {
    var url := ProcessLink(row.url);
    var data := DataLine(row.id, row.fromVisit, RowFields(row, render).value.0, RowFields(row, render).value.1.Name(), url);
    var video := VideoLines(url, fetch).value;
    BlanksAfterLines(data, video, BreakLines(row));
    OneBlank();
  }

  /** Exactly one blank line per session break, and no other. */
  lemma {:induction false} BodyBlankLines(rows: seq<Row>, render: Renderer, fetch: Fetcher)
    requires Body(rows, render, fetch).Ok?
    ensures CountBlank(Body(rows, render, fetch).value) == CountBreaks(rows)
    decreases |rows|
  {
    if |rows| > 0 {
      var front := rows[..|rows| - 1];
      BodyBlankLines(front, render, fetch);
      RowBlankLines(rows[|rows| - 1], render, fetch);
      CountBlankAppend(Body(front, render, fetch).value, RowLines(rows[|rows| - 1], render, fetch).value);
    }
  }

  /** The lines written to the report file, or the error that prevents it. */
  function Report(rows: seq<Row>, render: Renderer, fetch: Fetcher): (r: Result<seq<string>, Error>)
    ensures r.Ok? <==> forall i :: 0 <= i < |rows| ==> RowLines(rows[i], render, fetch).Ok?
    ensures r.Err? ==> exists i :: FirstFailure(rows, render, fetch, i) && r.error == RowLines(rows[i], render, fetch).error
    ensures r.Ok? ==> |r.value| == 1 + |rows| + CountVideos(rows) + CountBreaks(rows)
    ensures r.Ok? ==> r.value[0] == Header()
  {
    var body := Body(rows, render, fetch);
    if body.Err? then Err(body.error)
    else
      BodyLineCount(rows, render, fetch);
      Ok([Header()] + body.value)
  }

  lemma CenteredTitles()
    ensures Center("ID", IdWidth) == " ID "
  {
  }

  lemma CenteredTime()
    ensures Center("TIME", TimeWidth) == "      TIME      "
  {
  }

  lemma CenteredTransition()
    ensures Center("TRANSITION", NameWidth) == " TRANSITION  "
  {
  }

  /** The header as it appears in the file. */
  lemma HeaderText()
    ensures Header() == " ID | PREV |       TIME       |  TRANSITION   | URL\n"
  {
    HeaderPieces();
    HeaderJoined();
  }

  lemma HeaderPieces()
    ensures Header() == " ID " + "| " + "PREV" + " | " + "      TIME      " + " | "
                        + " TRANSITION  " + " | " + "URL" + "\n"
  {
    CenteredTitles();
    CenteredTime();
    CenteredTransition();
  }

  lemma HeaderJoined()
    ensures " ID " + "| " + "PREV" + " | " + "      TIME      " + " | " + " TRANSITION  " + " | " + "URL" + "\n"
         == " ID | PREV |       TIME       |  TRANSITION   | URL\n"
  {
    var h := " ID " + "| " + "PREV" + " | ";
    assert h == " ID | PREV | ";
    var h2 := h + "      TIME      " + " | ";
    assert h2 == " ID | PREV |       TIME       | ";
    var h3 := h2 + " TRANSITION  " + " | " + "URL" + "\n";
    assert h3 == " ID | PREV |       TIME       |  TRANSITION   | URL\n";
  }

  // ---------------------------------------------------------------------------
  // Reading a data line back

  /** The columns of a data line. */
  datatype DataFields = DataFields(id: int, fromVisit: int, time: string, transition: string, url: string)

  /** A field with no column separator in it. */
  predicate NoBar(s: string) {
    forall i :: 0 <= i < |s| ==> s[i] != '|'
  }

  /** The position of the first `|` at or after `from`, or `|s|` when there is none. */
  function FirstBar(s: string, from: nat): (k: nat)
    requires from <= |s|
    ensures from <= k <= |s|
    ensures forall i :: from <= i < k ==> s[i] != '|'
    ensures k < |s| ==> s[k] == '|'
    decreases |s| - from
  {
    if from == |s| || s[from] == '|' then from else FirstBar(s, from + 1)
  }

  /** Splits what follows the second separator: the time (16 characters),
      the transition column (13) and the URL, which may itself hold a `|`,
      up to the closing newline. */
  function ParseTail(tail: string): Option<(string, string, string)> {
    if |tail| >= 36 && tail[|tail| - 1] == '\n' && tail[16..19] == " | " && tail[32..35] == " | "
    then Some((tail[..16], Strip(tail[19..32]), tail[35..|tail| - 1]))
    else None
  }

  /** Reads the two id columns and what follows the second separator. */
  function ReadColumns(idText: string, fromText: string, tail: string): Option<DataFields> {
    var id := ParseInt(Strip(idText));
    var fromVisit := ParseInt(Strip(fromText));
    var rest := ParseTail(tail);
    if id.Some? && fromVisit.Some? && rest.Some?
    then Some(DataFields(id.value, fromVisit.value, rest.value.0, rest.value.1, rest.value.2))
    else None
  }

  /** Cuts a data line into the two id columns and what follows the second
      separator. The id columns end at the first and the second `|`, since a
      wide id widens its column. */
  function SplitLine(line: string): (r: Option<(string, string, string)>)
    ensures r.Some? ==> NoBar(r.value.0) && NoBar(r.value.1)
    ensures r.Some? ==> line == r.value.0 + "| " + r.value.1 + " | " + r.value.2
  {
    var p := FirstBar(line, 0);
    if p + 2 <= |line| && line[p..p + 2] == "| " then
      var q := FirstBar(line, p + 2);
      if p + 3 <= q && q + 2 <= |line| && line[q - 1..q + 2] == " | " then
        var r := (line[..p], line[p + 2..q - 1], line[q + 2..]);
        assert line == r.0 + line[p..p + 2] + r.1 + line[q - 1..q + 2] + r.2;
        Some(r)
      else None
    else None
  }

  /** Splits a data line into its columns and strips the padding. */
  function ParseDataLine(line: string): Option<DataFields> {
    match SplitLine(line)
    case None => None
    case Some((idText, fromText, tail)) => ReadColumns(idText, fromText, tail)
  }

  /** The first `|` from `from` on is at `k` when `k` holds one and nothing
      between holds one. */
  lemma FirstBarAt(s: string, from: nat, k: nat)
    requires from <= k < |s| && s[k] == '|'
    requires forall i :: from <= i < k ==> s[i] != '|'
    ensures FirstBar(s, from) == k
  {
  }

  /** The columns after the second separator keep fixed widths. */
  lemma TailLayout(date: string, c: string, url: string)
    requires |date| == 16 && |c| == 13
    ensures ParseTail(date + " | " + c + " | " + url + "\n") == Some((date, Strip(c), url))
  {
    var tail := date + " | " + c + " | " + url + "\n";
    var rest := c + " | " + url + "\n";
    assert tail == date + " | " + rest;
    assert tail[19..] == rest;
    assert tail[..16] == date && tail[16..19] == " | " && tail[19..32] == c && tail[32..35] == " | ";
    assert tail[35..|tail| - 1] == url;
  }

  /** A line built like a data line, with id columns free of `|`, is cut
      exactly where it was joined. */
  lemma HeadLayout(a: string, b: string, tail: string)
    requires NoBar(a) && NoBar(b)
    ensures SplitLine(a + "| " + b + " | " + tail) == Some((a, b, tail))
  {
    var line := a + "| " + b + " | " + tail;
    var p := |a|;
    var q := |a| + |b| + 3;
    assert line[..p] == a;
    assert line[p..p + 2] == "| " && line[p + 2..q - 1] == b && line[q - 1..q + 2] == " | ";
    assert line[q + 2..] == tail;
    FirstBarAt(line, 0, p);
    forall i | p + 2 <= i < q - 1
      ensures line[i] != '|'
    {
      assert line[i] == b[i - p - 2];
    }
    FirstBarAt(line, p + 2, q);
  }

  /** What the parser makes of any line built like a data line: the id
      columns are read from the text before the separators, and the rest
      from what follows them. */
  lemma ParseLaidOut(a: string, b: string, tail: string)
    requires NoBar(a) && NoBar(b)
    ensures ParseDataLine(a + "| " + b + " | " + tail) == ReadColumns(a, b, tail)
  {
    HeadLayout(a, b, tail);
  }

  lemma LineSplits(a: string, b: string, date: string, c: string, url: string)
    ensures a + "| " + b + " | " + date + " | " + c + " | " + url + "\n"
         == a + "| " + b + " | " + (date + " | " + c + " | " + url + "\n")
  {
  }

  /** Centring adds only spaces, so it brings in no separator. */
  lemma CenterNoBar(s: string, width: nat)
    requires NoBar(s)
    ensures NoBar(Center(s, width))
  {
    var r := Center(s, width);
    CenterLayout(s, width);
    var left := (|r| - |s|) / 2;
    forall i | left <= i < left + |s|
      ensures r[i] != '|'
    {
      assert r[i] == r[left..left + |s|][i - left];
    }
  }

  /** An id reads back from its padded column, whatever its width; an id from
      -999 to 9999 fills the four-character column exactly. */
  lemma CenteredIdReads(n: int)
    ensures NoBar(Center(IntToString(n), IdWidth))
    ensures ParseInt(Strip(Center(IntToString(n), IdWidth))) == Some(n)
    ensures -999 <= n <= 9999 ==> |Center(IntToString(n), IdWidth)| == IdWidth
  {
    var s := IntToString(n);
    if n < 0 {
      assert s[1..] == NatToString(-n);
      assert forall i :: 1 <= i < |s| ==> s[i] == s[1..][i - 1];
    }
    assert NoBar(s);
    CenterNoBar(s, IdWidth);
    CenterStrip(s, IdWidth);
    if -999 <= n <= 9999 {
      IntToStringFits4(n);
    }
  }

  /** A transition name reads back from its padded column. */
  lemma CenteredNameReads(t: Transition)
    ensures |Center(t.Name(), NameWidth)| == NameWidth
    ensures Strip(Center(t.Name(), NameWidth)) == t.Name()
  {
    var name := t.Name();
    assert name[0] != ' ' && name[|name| - 1] != ' ';
    CenterStrip(name, NameWidth);
  }

  /** Every data line can be read back into exactly the values it was built
      from: the id columns end at the separators, the other columns keep their
      widths, and the centring padding is the only thing stripped. */
  lemma DataLineRoundTrip(id: int, fromVisit: int, date: string, t: Transition, url: string)
    requires |date| == 16
    ensures ParseDataLine(DataLine(id, fromVisit, date, t.Name(), url))
         == Some(DataFields(id, fromVisit, date, t.Name(), url))
  {
    CenteredIdReads(id);
    CenteredIdReads(fromVisit);
    CenteredNameReads(t);
    var c := Center(t.Name(), NameWidth);
    LineSplits(Center(IntToString(id), IdWidth), Center(IntToString(fromVisit), IdWidth), date, c, url);
    TailLayout(date, c, url);
    ParseLaidOut(Center(IntToString(id), IdWidth), Center(IntToString(fromVisit), IdWidth),
                 date + " | " + c + " | " + url + "\n");
  }

  lemma ReportIsHeaderAndBody(rows: seq<Row>, render: Renderer, fetch: Fetcher)
    requires Report(rows, render, fetch).Ok?
    ensures Body(rows, render, fetch).Ok?
    ensures Report(rows, render, fetch).value == [Header()] + Body(rows, render, fetch).value
  {
  }

  /** For any renderer of 16-character times, row `i`'s data line in the
      report reads back as that row's ids, rendered time, transition name and
      normalised URL. */
  lemma ReportDataLine(rows: seq<Row>, i: nat, render: Renderer, fetch: Fetcher)
    requires Report(rows, render, fetch).Ok? && i < |rows|
    requires render(rows[i].visitDate).Some? ==> |render(rows[i].visitDate).value| == 16
    ensures var row := rows[i];
      var lines := Report(rows, render, fetch).value;
      && 1 + LinesBefore(rows, i) < |lines|
      && render(row.visitDate).Some? && FromCode(row.visitType).Some?
      && ParseDataLine(lines[1 + LinesBefore(rows, i)])
         == Some(DataFields(row.id, row.fromVisit, render(row.visitDate).value,
                            FromCode(row.visitType).value.Name(), ProcessLink(row.url)))
  {
    var row := rows[i];
    ReportIsHeaderAndBody(rows, render, fetch);
    BodyDataLineAt(rows, i, render, fetch);
    BodyAround(rows, i, render, fetch);
    RowLinesOk(row, render, fetch);
    var date := render(row.visitDate).value;
    var t := FromCode(row.visitType).value;
    DataLineRoundTrip(row.id, row.fromVisit, date, t, ProcessLink(row.url));
  }

  /** The script's run over the two tables, with times rendered by `GetDate`. */
  function Run(visits: seq<Visit>, places: seq<Place>, fetch: Fetcher): (r: Result<seq<string>, Error>)
    ensures var rows := Extract(visits, places);
      && (r.Ok? <==> forall i :: 0 <= i < |rows| ==> RowLines(rows[i], GetDate, fetch).Ok?)
      && (r.Ok? ==> |r.value| == 1 + |rows| + CountVideos(rows) + CountBreaks(rows) && r.value[0] == Header())
  {
    Report(Extract(visits, places), GetDate, fetch)
  }

  /** In the script's run, the data line of the `i`-th newest selected visit
      reads back as that visit's ids, its minute as `YYYY-MM-DD HH:MM`, its
      transition's name and its normalised URL. */
  lemma RunDataLine(visits: seq<Visit>, places: seq<Place>, fetch: Fetcher, i: nat)
    requires Run(visits, places, fetch).Ok? && i < |Extract(visits, places)|
    ensures var rows := Extract(visits, places);
      var row := rows[i];
      var lines := Run(visits, places, fetch).value;
      && 1 + LinesBefore(rows, i) < |lines|
      && row.visitDate >= Cutoff
      && ParseDataLine(lines[1 + LinesBefore(rows, i)])
         == Some(DataFields(row.id, row.fromVisit, GetDate(row.visitDate).value,
                            FromCode(row.visitType).value.Name(), ProcessLink(row.url)))
      && ParseStamp(GetDate(row.visitDate).value) == Some(row.visitDate / MicrosPerMinute)
  {
    var rows := Extract(visits, places);
    var row := rows[i];
    assert row in rows;
    assert row.visitDate >= Cutoff;
    var lines := Run(visits, places, fetch).value;
    assert lines == Report(rows, GetDate, fetch).value;
    ReportDataLine(rows, i, GetDate, fetch);
    var date := GetDate(row.visitDate).value;
    assert ParseStamp(date) == Some(row.visitDate / MicrosPerMinute);
    assert ParseDataLine(lines[1 + LinesBefore(rows, i)])
        == Some(DataFields(row.id, row.fromVisit, date, FromCode(row.visitType).value.Name(), ProcessLink(row.url)));
  }
}
