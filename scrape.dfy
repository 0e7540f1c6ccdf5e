/**
 * The records scraper: for every generated page URL, what the visit adds to
 * the collected tables (or which debug screenshot it leaves), the loop that
 * accumulates the pages in visit order, and the final concatenation.
 *
 * The browser is not modelled: each visit's outcome is an input, one per URL.
 */
module Scrape {
  import opened Wrappers
  import opened Frames
  import opened Urls

  /** The names given to the first seven columns of a downloaded CSV. */
  const RecordColumns: seq<string> := ["Division", "Weight Class", "Lift", "Name", "Kilos", "Pounds", "Date"]

  /**
   * The columns of every collected table and of the combined output: the
   * record columns, then the metadata columns Location, Event and Status.
   */
  const OutputColumns: seq<string> :=
    ["Division", "Weight Class", "Lift", "Name", "Kilos", "Pounds", "Date", "Location", "Event", "Status"]

  /** What the browser did on one page. */
  datatype PageVisit =
    | PageError                       // loading the page or finding its iframe raised
    | NoButton                        // the "Download CSV" button was missing or not clickable
    | DownloadTimeout                 // no CSV appeared during the twenty polls
    | Downloaded(csv: Option<Table>)  // a CSV appeared; None when it could not be parsed

  /** A parsed CSV is a well-formed table. */
  predicate Parsed(v: PageVisit) {
    v.Downloaded? && v.csv.Some? ==> WellFormed(v.csv.value)
  }

  predicate AllParsed(visits: seq<PageVisit>) {
    forall k :: 0 <= k < |visits| ==> Parsed(visits[k])
  }

  /** What one visit contributes. */
  datatype Outcome =
    | Skipped                   // the error was reported and the loop moved on
    | Screenshot(file: string)  // the inner handler saved a debug screenshot
    | Loaded(page: Table)       // a shaped table was appended to the collected pages

  /**
   * Keep the first seven columns of a downloaded table under the record
   * column names and add the page's location, event and status to every row.
   * Renaming fewer than seven columns raises, which is None here.
   */
  function ShapePage(t: Table, q: Query): (r: Option<Table>)
    requires WellFormed(t)
    ensures r.Some? <==> |t.columns| >= 7
    ensures r.Some? ==> r.value.columns == OutputColumns && |r.value.rows| == |t.rows| && WellFormed(r.value)
    ensures r.Some? ==> forall i :: 0 <= i < |t.rows| ==> |t.rows[i]| >= 7 && r.value.rows[i][..7] == t.rows[i][..7]
    ensures r.Some? ==> forall i :: 0 <= i < |t.rows| ==>
              r.value.rows[i][7..] == [Text(q.location), Text(q.event), Text(q.status)]
  {
    if |t.columns| < 7 then None
    else
      var rows := seq(|t.rows|, i requires 0 <= i < |t.rows| =>
        t.rows[i][..7] + [Text(q.location), Text(q.event), Text(q.status)]);
      Some(Table(OutputColumns, rows))
  }

  /** The output columns are the record columns and then the metadata columns, no two alike. */
  lemma OutputColumnsLayout()
    ensures |OutputColumns| == 10 && OutputColumns[..7] == RecordColumns
    ensures OutputColumns[7] == "Location" && OutputColumns[8] == "Event" && OutputColumns[9] == "Status"
    ensures Distinct(OutputColumns)
  {
  }

  /**
   * Read by column name, a shaped page holds the downloaded record cells under
   * the record names and the page's query under Location, Event and Status.
   */
  lemma PageByName(t: Table, q: Query, i: nat)
    requires WellFormed(t) && |t.columns| >= 7 && i < |t.rows|
    ensures ShapePage(t, q).Some?
    ensures forall k :: 0 <= k < 7 ==> Get(ShapePage(t, q).value, i, RecordColumns[k]) == t.rows[i][k]
    ensures Get(ShapePage(t, q).value, i, "Location") == Text(q.location)
    ensures Get(ShapePage(t, q).value, i, "Event") == Text(q.event)
    ensures Get(ShapePage(t, q).value, i, "Status") == Text(q.status)
  {
    OutputColumnsLayout();
    var p := ShapePage(t, q).value;
    var row := p.rows[i];
    assert row[..7] == t.rows[i][..7];
    assert row[7..] == [Text(q.location), Text(q.event), Text(q.status)];
    forall k | 0 <= k < 10 ensures Get(p, i, OutputColumns[k]) == row[k] {
      GetAt(p, i, k);
    }
    forall k | 0 <= k < 7 ensures Get(p, i, RecordColumns[k]) == t.rows[i][k] {
      assert RecordColumns[k] == OutputColumns[k];
      assert row[k] == row[..7][k];
    }
    assert row[7] == row[7..][0] && row[8] == row[7..][1] && row[9] == row[7..][2];
  }

  /**
   * One pass of the loop body. Page errors and download timeouts are reported
   * and skipped; a missing button, a CSV that cannot be parsed, a URL without
   * its parameters and a table too narrow to rename all land in the inner
   * handler, which saves a screenshot named after the URL's last `=` segment.
   */
  function Visit(url: string, v: PageVisit): (r: Outcome)
    requires Parsed(v)
    ensures r.Loaded? <==> v.Downloaded? && v.csv.Some? && ExtractParams(url).Some? && |v.csv.value.columns| >= 7
    ensures r.Skipped? <==> v.PageError? || v.DownloadTimeout?
    ensures r.Screenshot? ==> r.file == DebugScreenshotName(url)
    ensures r.Loaded? ==> ShapePage(v.csv.value, ExtractParams(url).value) == Some(r.page)
  {
    match v
    case PageError => Skipped
    case NoButton => Screenshot(DebugScreenshotName(url))
    case DownloadTimeout => Skipped
    case Downloaded(csv) =>
      var params := ExtractParams(url);
      if params.None? || csv.None? then Screenshot(DebugScreenshotName(url))
      else match ShapePage(csv.value, params.value)
        case None => Screenshot(DebugScreenshotName(url))
        case Some(page) => Loaded(page)
  }

  /** The pages appended to `all_data` after visiting `urls`, in visit order. */
  function Collected(urls: seq<string>, visits: seq<PageVisit>): seq<Table>
    requires |visits| == |urls| && AllParsed(visits)
  {
    if urls == [] then []
    else
      var n := |urls| - 1;
      Keep(Collected(urls[..n], visits[..n]), Visit(urls[n], visits[n]))
  }

  /** The collected pages after one more visit. */
  function Keep(prev: seq<Table>, o: Outcome): seq<Table> {
    if o.Loaded? then prev + [o.page] else prev
  }

  /** The debug screenshots saved while visiting `urls`, in visit order. */
  function Screenshots(urls: seq<string>, visits: seq<PageVisit>): seq<string>
    requires |visits| == |urls| && AllParsed(visits)
  {
    if urls == [] then []
    else
      var n := |urls| - 1;
      var prev := Screenshots(urls[..n], visits[..n]);
      match Visit(urls[n], visits[n])
      case Screenshot(file) => prev + [file]
      case _ => prev
  }

  /**
   * The scraping loop: visit each URL in turn and append every shaped page to
   * the collected tables; `continue` wherever the script gives up on a page.
   */
  method CollectPages(urls: seq<string>, visits: seq<PageVisit>) returns (allData: seq<Table>, shots: seq<string>)
    requires |visits| == |urls| && AllParsed(visits)
    ensures allData == Collected(urls, visits)
    ensures shots == Screenshots(urls, visits)
  {
    allData := [];
    shots := [];
    for i := 0 to |urls|
      invariant allData == Collected(urls[..i], visits[..i])
      invariant shots == Screenshots(urls[..i], visits[..i])
    {
      assert urls[..i + 1][..i] == urls[..i] && visits[..i + 1][..i] == visits[..i];
      var url := urls[i];
      var v := visits[i];
      if v.PageError? || v.DownloadTimeout? {
        continue;
      }
      if v.NoButton? {
        shots := shots + [DebugScreenshotName(url)];
        continue;
      }
      var params := ExtractParams(url);
      if params.None? || v.csv.None? {
        shots := shots + [DebugScreenshotName(url)];
        continue;
      }
      var page := ShapePage(v.csv.value, params.value);
      if page.None? {
        shots := shots + [DebugScreenshotName(url)];
        continue;
      }
      allData := allData + [page.value];
    }
    assert urls[..|urls|] == urls && visits[..|visits|] == visits;
  }

  /** Collecting over two runs of visits is collecting over each in turn. */
  lemma {:induction false} CollectedAppend(u1: seq<string>, v1: seq<PageVisit>, u2: seq<string>, v2: seq<PageVisit>)
    requires |v1| == |u1| && AllParsed(v1) && |v2| == |u2| && AllParsed(v2)
    ensures AllParsed(v1 + v2)
    ensures Collected(u1 + u2, v1 + v2) == Collected(u1, v1) + Collected(u2, v2)
    decreases |u2|
  {
    var us, vs := u1 + u2, v1 + v2;
    assert AllParsed(vs);
    if u2 == [] {
      assert us == u1 && vs == v1;
    } else {
      var n := |u2| - 1;
      var m := |us| - 1;
      assert us[..m] == u1 + u2[..n] && vs[..m] == v1 + v2[..n];
      assert us[m] == u2[n] && vs[m] == v2[n];
      CollectedAppend(u1, v1, u2[..n], v2[..n]);
      var o := Visit(u2[n], v2[n]);
      assert Collected(us, vs) == Keep(Collected(u1, v1) + Collected(u2[..n], v2[..n]), o);
      assert Collected(u2, v2) == Keep(Collected(u2[..n], v2[..n]), o);
    }
  }

  /** Every collected page has the output columns and one cell per column in each row. */
  lemma {:induction false} CollectedShape(urls: seq<string>, visits: seq<PageVisit>)
    requires |visits| == |urls| && AllParsed(visits)
    ensures forall p :: p in Collected(urls, visits) ==> p.columns == OutputColumns && WellFormed(p)
    decreases |urls|
  {
    if urls != [] {
      var n := |urls| - 1;
      CollectedShape(urls[..n], visits[..n]);
    }
  }

  /**
   * A visit that does not load adds no page, wherever it falls in the run:
   * the pages collected around it are those of the URLs before it followed by
   * those of the URLs after it.
   */
  lemma {:induction false} CollectedSkip(u1: seq<string>, v1: seq<PageVisit>, url: string, v: PageVisit,
                                         u2: seq<string>, v2: seq<PageVisit>)
    requires |v1| == |u1| && AllParsed(v1) && |v2| == |u2| && AllParsed(v2) && Parsed(v)
    requires !Visit(url, v).Loaded?
    ensures AllParsed(v1 + [v] + v2)
    ensures Collected(u1 + [url] + u2, v1 + [v] + v2) == Collected(u1, v1) + Collected(u2, v2)
  {
    var us, vs := u1 + [url], v1 + [v];
    assert us[..|u1|] == u1 && vs[..|u1|] == v1 && us[|u1|] == url && vs[|u1|] == v;
    assert AllParsed(vs);
    assert Collected(us, vs) == Collected(u1, v1);
    CollectedAppend(us, vs, u2, v2);
  }

  /** The number of visits that load a page. */
  function LoadedCount(urls: seq<string>, visits: seq<PageVisit>): nat
    requires |visits| == |urls| && AllParsed(visits)
  {
    if urls == [] then 0
    else
      var n := |urls| - 1;
      LoadedCount(urls[..n], visits[..n]) + (if Visit(urls[n], visits[n]).Loaded? then 1 else 0)
  }

  lemma {:induction false} CountBounds(urls: seq<string>, visits: seq<PageVisit>)
    requires |visits| == |urls| && AllParsed(visits)
    ensures |Collected(urls, visits)| == LoadedCount(urls, visits)
    ensures |Collected(urls, visits)| + |Screenshots(urls, visits)| <= |urls|
    decreases |urls|
  {
    if urls != [] {
      var n := |urls| - 1;
      CountBounds(urls[..n], visits[..n]);
      var o := Visit(urls[n], visits[n]);
      assert |Collected(urls, visits)| == |Collected(urls[..n], visits[..n])| + (if o.Loaded? then 1 else 0);
      assert |Screenshots(urls, visits)| == |Screenshots(urls[..n], visits[..n])| + (if o.Screenshot? then 1 else 0);
    }
  }

  /**
   * On a generated page URL whose CSV downloads with at least seven columns,
   * every collected row is stamped with that page's location, event and status.
   */
  lemma GeneratedPageLoads(i: nat, j: nat, k: nat, t: Table, r: nat)
    requires i < |Locations| && j < |Statuses| && k < |Events|
    requires WellFormed(t) && |t.columns| >= 7 && r < |t.rows|
    ensures (i * 2 + j) * 10 + k < |PageUrls()|
    ensures Visit(PageUrls()[(i * 2 + j) * 10 + k], Downloaded(Some(t))).Loaded?
    ensures Get(Visit(PageUrls()[(i * 2 + j) * 10 + k], Downloaded(Some(t))).page, r, "Location") == Text(Locations[i])
    ensures Get(Visit(PageUrls()[(i * 2 + j) * 10 + k], Downloaded(Some(t))).page, r, "Status") == Text(Statuses[j])
    ensures Get(Visit(PageUrls()[(i * 2 + j) * 10 + k], Downloaded(Some(t))).page, r, "Event") == Text(Events[k])
  {
    PageUrlsRoundTrip(i, j, k);
    VisitStamps(PageUrls()[(i * 2 + j) * 10 + k], Query(Locations[i], Statuses[j], Events[k]), t, r);
  }

  /** A page whose URL yields `q` and whose CSV is wide enough is loaded with `q` on every row. */
  lemma VisitStamps(url: string, q: Query, t: Table, r: nat)
    requires ExtractParams(url) == Some(q)
    requires WellFormed(t) && |t.columns| >= 7 && r < |t.rows|
    ensures Visit(url, Downloaded(Some(t))).Loaded?
    ensures Get(Visit(url, Downloaded(Some(t))).page, r, "Location") == Text(q.location)
    ensures Get(Visit(url, Downloaded(Some(t))).page, r, "Status") == Text(q.status)
    ensures Get(Visit(url, Downloaded(Some(t))).page, r, "Event") == Text(q.event)
  {
    var o := Visit(url, Downloaded(Some(t)));
    assert o.Loaded?;
    assert ShapePage(t, q) == Some(o.page);
    PageByName(t, q, r);
  }

  /** A generated page that fails inside the inner handler leaves `debug_<event>.png`. */
  lemma GeneratedPageScreenshot(i: nat, j: nat, k: nat, v: PageVisit)
    requires i < |Locations| && j < |Statuses| && k < |Events| && Parsed(v)
    ensures (i * 2 + j) * 10 + k < |PageUrls()|
    ensures Visit(PageUrls()[(i * 2 + j) * 10 + k], v).Screenshot? ==>
              Visit(PageUrls()[(i * 2 + j) * 10 + k], v).file == "debug_" + Events[k] + ".png"
  {
    PageUrlsRoundTrip(i, j, k);
    ListsClean();
    DebugNameOfUrl(Query(Locations[i], Statuses[j], Events[k]));
  }

  /** The rows of all pages, page after page (`pd.concat` with a fresh index). */
  function ConcatRows(pages: seq<Table>): seq<Row> {
    if pages == [] then [] else pages[0].rows + ConcatRows(pages[1..])
  }

  /** The number of rows on the pages before page `p`. */
  function RowsBefore(pages: seq<Table>, p: nat): nat
    requires p <= |pages|
  {
    if p == 0 then 0 else RowsBefore(pages, p - 1) + |pages[p - 1].rows|
  }

  /** Row `i` of page `p` is row `RowsBefore(pages, p) + i` of the concatenation. */
  lemma {:induction false} ConcatRowsAt(pages: seq<Table>, p: nat, i: nat)
    requires p < |pages| && i < |pages[p].rows|
    ensures RowsBefore(pages, p) + i < |ConcatRows(pages)|
    ensures ConcatRows(pages)[RowsBefore(pages, p) + i] == pages[p].rows[i]
    decreases p
  {
    if p > 0 {
      ConcatRowsAt(pages[1..], p - 1, i);
      RowsBeforeTail(pages, p);
    }
  }

  lemma {:induction false} RowsBeforeTail(pages: seq<Table>, p: nat)
    requires 0 < p <= |pages|
    ensures RowsBefore(pages, p) == |pages[0].rows| + RowsBefore(pages[1..], p - 1)
    decreases p
  {
    if p > 1 {
      RowsBeforeTail(pages, p - 1);
    }
  }

  /** The concatenation has exactly the rows of all pages. */
  lemma {:induction false} ConcatRowsLength(pages: seq<Table>)
    ensures |ConcatRows(pages)| == RowsBefore(pages, |pages|)
    decreases |pages|
  {
    if pages != [] {
      ConcatRowsLength(pages[1..]);
      RowsBeforeTail(pages, |pages|);
    }
  }

  /**
   * The combined output: nothing when no page was collected, otherwise the
   * pages' rows one after another under the first page's columns.
   */
  function Combine(pages: seq<Table>): (r: Option<Table>)
    ensures r.None? <==> pages == []
  {
    if pages == [] then None else Some(Table(pages[0].columns, ConcatRows(pages)))
  }

  /** Pages of one width concatenate to rows of that width. */
  lemma {:induction false} ConcatRowsWidth(pages: seq<Table>, width: nat)
    requires forall p :: 0 <= p < |pages| ==> WellFormed(pages[p]) && |pages[p].columns| == width
    ensures forall i :: 0 <= i < |ConcatRows(pages)| ==> |ConcatRows(pages)[i]| == width
    decreases |pages|
  {
    if pages != [] {
      ConcatRowsWidth(pages[1..], width);
      var head, rest := pages[0].rows, ConcatRows(pages[1..]);
      forall i | 0 <= i < |head + rest| ensures |(head + rest)[i]| == width {
        if i >= |head| {
          assert (head + rest)[i] == rest[i - |head|];
        }
      }
    }
  }

  /** Combining collected pages keeps the output columns and well-formed rows. */
  lemma CombineShape(pages: seq<Table>)
    requires pages != []
    requires forall p :: p in pages ==> p.columns == OutputColumns && WellFormed(p)
    ensures Combine(pages).value.columns == OutputColumns && WellFormed(Combine(pages).value)
  {
    assert pages[0] in pages;
    forall p | 0 <= p < |pages| ensures WellFormed(pages[p]) && |pages[p].columns| == |OutputColumns| {
      assert pages[p] in pages;
    }
    ConcatRowsWidth(pages, |OutputColumns|);
  }

  /** The whole run: collect over the generated URLs, then combine. */
  function ScrapeAll(visits: seq<PageVisit>): Option<Table>
    requires |visits| == |PageUrls()| && AllParsed(visits)
  {
    Combine(Collected(PageUrls(), visits))
  }

  /** The output, when there is one, has the output columns and well-formed rows. */
  lemma ScrapeAllShape(visits: seq<PageVisit>)
    requires |visits| == |PageUrls()| && AllParsed(visits)
    ensures ScrapeAll(visits).Some? ==>
              ScrapeAll(visits).value.columns == OutputColumns && WellFormed(ScrapeAll(visits).value)
  {
    var pages := Collected(PageUrls(), visits);
    CollectedShape(PageUrls(), visits);
    if pages != [] {
      CombineShape(pages);
    }
  }
}
