/**
  One analysis of a Search Console export, from its landing pages to the three level
  tables, the average CTRs and the pie data (app.py:121-218).
*/
module Pipeline {
  import opened Wrappers
  import opened Seqs
  import opened Text
  import opened UrlSplit
  import opened UrlTable
  import opened TableLayout
  import opened MetricsJoin
  import opened Levels
  import opened Distribution

  /** What one depth yields: `pivot_dir_d`, `average_ctr_dir_d` and the data of its pie. */
  datatype DepthReport = DepthReport(table: seq<LevelRow>, averageCtr: Option<real>, pie: seq<Slice>)

  /** `directories[[...]]` for the URLs `us`, when the selection succeeds. */
  function Directories(us: seq<ParsedUrl>): seq<DirRow>
  {
    seq(|us|, i requires 0 <= i < |us| => DirRowOf(us[i]))
  }

  /** The frame `full`, with the page decoded for the join. */
  function Full(ms: seq<MetricsRow>, us: seq<ParsedUrl>): seq<JoinedRow>
  {
    RightJoinDecoded(Directories(us), ms)
  }

  function DepthReportOf(rows: seq<JoinedRow>, d: nat): DepthReport
  {
    DepthReport(Level(rows, d), AverageCtr(Level(rows, d)), PlotData(Level(rows, d)))
  }

  /** The report computed from `full`: depths 1, 2 and 3. */
  function ReportOf(rows: seq<JoinedRow>): seq<DepthReport>
  {
    [DepthReportOf(rows, 1), DepthReportOf(rows, 2), DepthReportOf(rows, 3)]
  }

  /** A selected column the frame of `us` lacks: `dir_k` beyond the deepest path, or everything but `url` when there is no URL. */
  predicate MissingColumn(us: seq<ParsedUrl>, f: Field)
  {
    && f in Selected
    && match f
      case Url => false
      case Dir(k) => k > MaxDepth(us)
      case _ => |us| == 0
  }

  /** The `KeyError` of the selection names exactly the missing columns. */
  lemma SelectErrors(us: seq<ParsedUrl>, t: Table, f: Field)
    requires forall i :: 0 <= i < |us| ==> DistinctNames(us[i].params)
    requires IsLayout(us, t.columns)
    requires Rectangular(t) && SelectDirs(t).Err?
    ensures f in SelectDirs(t).error <==> MissingColumn(us, f)
  {
    if f in Selected {
      SelectedAbsent(us, t.columns, f);
    }
  }

  /** A selected column is absent from a frame of `us` exactly when it is missing as defined above. */
  lemma SelectedAbsent(us: seq<ParsedUrl>, cols: seq<Field>, f: Field)
    requires forall i :: 0 <= i < |us| ==> DistinctNames(us[i].params)
    requires IsLayout(us, cols) && f in Selected
    ensures f !in cols <==> MissingColumn(us, f)
  {
    match f
    case Url => LayoutUrlFirst(us, cols);
    case Dir(k) => DirColumns(us, cols, k);
    case Scheme => BaseColumns(us, cols, f);
    case Netloc => BaseColumns(us, cols, f);
    case Path => BaseColumns(us, cols, f);
    case _ =>
  }

  /**
    The analysis of the report rows `ms` whose pages parse to `parsed`: the `KeyError` of
    the selection when no path has three segments, naming the missing columns, and the
    report of the joined frame otherwise.
  */
  method Analyze(ms: seq<MetricsRow>, parsed: seq<ParsedUrl>) returns (r: Result<seq<DepthReport>, seq<Field>>)
    requires forall i :: 0 <= i < |parsed| ==> DistinctNames(parsed[i].params)
    ensures r.Err? <==> MaxDepth(parsed) < 3
    ensures r.Err? ==> forall f :: f in r.error <==> MissingColumn(parsed, f)
    ensures r.Ok? ==> r.value == ReportOf(Full(ms, parsed))
  {
    var t := UrlToDf(parsed);
    assert FrameOf(parsed, t);
    FrameSelect(parsed, t);
    var sel := SelectDirs(t);
    if sel.Err? {
      return Err(sel.error);
    }
    var full := RightJoinDecoded(sel.value, ms);
    var d1 := Depth(full, 1);
    var d2 := Depth(full, 2);
    var d3 := Depth(full, 3);
    r := Ok([d1, d2, d3]);
  }

  /**
    The page `http://x/a%20b/c/d/` gets through the column selection: on the frame built for
    it, the selection yields its one directory row, and the as-written join on that row still
    gives the page null directories.
  */
  lemma ExampleReachesMerge(t: Table)
    requires FrameOf([ExampleUrl()], t)
    ensures SelectDirs(t) == Ok([DirRowOf(ExampleUrl())])
    ensures RightJoin(SelectDirs(t).value, [MetricsRow("http://x/a%20b/c/d/", 5, 10)])
      == [JoinedRow(None, "http://x/a%20b/c/d/", 5, 10, 1)]
  {
    EscapedPageExample();
    SingleFrameSelect(ExampleUrl(), t);
  }

  /** The frame of one URL three segments deep selects to that URL's directory row. */
  lemma SingleFrameSelect(u: ParsedUrl, t: Table)
    requires DistinctNames(u.params) && FrameOf([u], t) && MaxDepth([u]) >= 3
    ensures SelectDirs(t) == Ok([DirRowOf(u)])
  {
    FrameSelect([u], t);
    assert Directories([u]) == [DirRowOf(u)];
  }

  /** The selection from the frame of `parsed`: its error, or the directory rows of the URLs. */
  lemma FrameSelect(us: seq<ParsedUrl>, t: Table)
    requires forall i :: 0 <= i < |us| ==> DistinctNames(us[i].params)
    requires FrameOf(us, t)
    ensures Rectangular(t)
    ensures SelectDirs(t).Ok? <==> MaxDepth(us) >= 3
    ensures SelectDirs(t).Err? ==> forall f :: f in SelectDirs(t).error <==> MissingColumn(us, f)
    ensures SelectDirs(t).Ok? ==> SelectDirs(t).value == Directories(us)
  {
    SelectFromFrame(us, t);
    if SelectDirs(t).Err? {
      FrameErrors(us, t);
    } else {
      FrameRows(us, t);
    }
  }

  lemma FrameErrors(us: seq<ParsedUrl>, t: Table)
    requires forall i :: 0 <= i < |us| ==> DistinctNames(us[i].params)
    requires IsLayout(us, t.columns)
    requires Rectangular(t) && SelectDirs(t).Err?
    ensures forall f :: f in SelectDirs(t).error <==> MissingColumn(us, f)
  {
    forall f ensures f in SelectDirs(t).error <==> MissingColumn(us, f) {
      SelectErrors(us, t, f);
    }
  }

  lemma FrameRows(us: seq<ParsedUrl>, t: Table)
    requires FrameOf(us, t)
    requires Rectangular(t) && SelectDirs(t).Ok?
    ensures SelectDirs(t).value == Directories(us)
  {
    SelectedRows(us, t);
  }

  /** The level table of depth `d`, its average CTR and its pie, built with the in-place relabelling. */
  method Depth(rows: seq<JoinedRow>, d: nat) returns (r: DepthReport)
    ensures r == DepthReportOf(rows, d)
  {
    var level := Level(rows, d);
    var pie := Plot(level);
    r := DepthReport(level, AverageCtr(level), pie);
  }

  /** `parsed` is the parse of the decoded pages of `ms`, one URL per report row. */
  predicate ParsedFrom(ms: seq<MetricsRow>, us: seq<ParsedUrl>)
  {
    |us| == |ms| && forall i :: 0 <= i < |ms| ==> us[i].url == Unquote(ms[i].page)
  }

  /**
    Every row of `full` has `nb = 1` and its directory columns; when no two pages decode
    alike, row `i` of `full` is report row `i` with the directories of URL `i`.
  */
  lemma FullMatched(ms: seq<MetricsRow>, us: seq<ParsedUrl>)
    requires ParsedFrom(ms, us)
    ensures forall j :: 0 <= j < |Full(ms, us)| ==> Full(ms, us)[j].left.Some? && Full(ms, us)[j].nb == 1
    ensures (forall i, k :: 0 <= i < k < |ms| ==> Unquote(ms[i].page) != Unquote(ms[k].page)) ==>
      |Full(ms, us)| == |ms| && forall i :: 0 <= i < |ms| ==>
        Full(ms, us)[i] == JoinedRow(Some(DirRowOf(us[i])), ms[i].page, ms[i].clicks, ms[i].impressions, 1)
  {
    var left, r := Directories(us), Full(ms, us);
    DirectoriesUrls(ms, us);
    DecodedJoinMatches(left, ms);
    forall j | 0 <= j < |r| ensures r[j].nb == 1 {
      var i := JoinOrigin(left, ms, Unquote, j);
    }
    if forall i, k :: 0 <= i < k < |ms| ==> Unquote(ms[i].page) != Unquote(ms[k].page) {
      forall i | 0 <= i < |ms| ensures |r| == |ms| && r[i] == JoinedRow(Some(DirRowOf(us[i])), ms[i].page, ms[i].clicks, ms[i].impressions, 1) {
        FullRowAt(ms, us, i);
      }
    }
  }

  /** The `url` of directory row `i` is the decoded page of report row `i`. */
  lemma DirectoriesUrls(ms: seq<MetricsRow>, us: seq<ParsedUrl>)
    requires ParsedFrom(ms, us)
    ensures |Directories(us)| == |ms|
    ensures forall k :: 0 <= k < |ms| ==> Directories(us)[k].url == Some(Unquote(ms[k].page))
  {
  }

  /** Row `i` of a join that keeps the report one for one. */
  lemma FullRowAt(ms: seq<MetricsRow>, us: seq<ParsedUrl>, i: nat)
    requires ParsedFrom(ms, us) && i < |ms|
    requires forall a, b :: 0 <= a < b < |ms| ==> Unquote(ms[a].page) != Unquote(ms[b].page)
    ensures |Full(ms, us)| == |ms|
    ensures Full(ms, us)[i] == JoinedRow(Some(DirRowOf(us[i])), ms[i].page, ms[i].clicks, ms[i].impressions, 1)
  {
    var left := Directories(us);
    DirectoriesUrls(ms, us);
    forall k | 0 <= k < |ms| ensures |Matches(left, Unquote(ms[k].page))| <= 1 {
      OnlyMatch(left, ms, k);
    }
    JoinUnique(left, ms, Unquote);
    var r := RightJoinOn(left, ms, Unquote);
    assert FromRow(r[i], ms[i], left, Unquote);
    OnlyMatch(left, ms, i);
    assert r[i].left.value in [left[i]];
  }

  /** A directory cell of `full` is a path segment: it never holds a '/'. */
  lemma FullDirCell(ms: seq<MetricsRow>, us: seq<ParsedUrl>, j: nat, k: nat)
    requires j < |Full(ms, us)|
    ensures DirCell(Full(ms, us)[j], k).Some? ==> '/' !in DirCell(Full(ms, us)[j], k).value
  {
    var left, r := Directories(us), Full(ms, us)[j];
    if r.left.Some? && k < |r.left.value.dirs| {
      var i := JoinOrigin(left, ms, Unquote, j);
      assert r.left.value in left;
      var n :| 0 <= n < |us| && left[n] == r.left.value;
      DirRowOfSegments(us[n], k);
    }
  }

  /** Rows whose directory cells hold no '/'. */
  ghost predicate PlainCells(rows: seq<JoinedRow>)
  {
    forall j, k :: 0 <= j < |rows| && DirCell(rows[j], k).Some? ==> '/' !in DirCell(rows[j], k).value
  }

  lemma FullPlain(ms: seq<MetricsRow>, us: seq<ParsedUrl>)
    ensures PlainCells(Full(ms, us))
  {
    forall j, k | 0 <= j < |Full(ms, us)| && DirCell(Full(ms, us)[j], k).Some?
      ensures '/' !in DirCell(Full(ms, us)[j], k).value
    {
      FullDirCell(ms, us, j, k);
    }
  }

  /** The keys of a level at depth `d >= 1` are `d` directory names without '/', no two alike. */
  lemma LevelKeys(rows: seq<JoinedRow>, d: nat)
    requires d >= 1 && PlainCells(rows)
    ensures forall i :: 0 <= i < |Level(rows, d)| ==> PlainKey(Level(rows, d)[i].key) && |Level(rows, d)[i].key| == d
    ensures forall i, j :: 0 <= i < j < |Level(rows, d)| ==> Level(rows, d)[i].key != Level(rows, d)[j].key
  {
    var p, l := Pivot(rows, d), Level(rows, d);
    PivotGroups(rows, d);
    forall i | 0 <= i < |l| ensures PlainKey(l[i].key) && |l[i].key| == d {
      assert l[i].key == p[i].key;
      PivotMember(rows, d, p[i]);
      var n :| 0 <= n < |rows| && KeyOf(rows[n], d) == Some(p[i].key);
      KeyOfSpec(rows[n], d);
    }
    forall i, j | 0 <= i < j < |l| ensures l[i].key != l[j].key {
      assert l[i].key == p[i].key && l[j].key == p[j].key;
    }
  }

  /**
    In every pie of the report, no two slices other than `*others` share a name, so the
    chart never merges two directories.
  */
  lemma ReportPieNames(ms: seq<MetricsRow>, us: seq<ParsedUrl>, d: nat)
    requires 1 <= d <= 3
    ensures var p := DepthReportOf(Full(ms, us), d).pie;
      forall i, j :: 0 <= i < j < |p| && p[i].name != Others && p[j].name != Others ==> p[i].name != p[j].name
  {
    var rows := Full(ms, us);
    FullPlain(ms, us);
    PieNames(rows, d);
  }

  /** The pie of depth `d` built from rows whose directory cells hold no '/'. */
  lemma PieNames(rows: seq<JoinedRow>, d: nat)
    requires 1 <= d && PlainCells(rows)
    ensures var p := PlotData(Level(rows, d));
      forall i, j :: 0 <= i < j < |p| && p[i].name != Others && p[j].name != Others ==> p[i].name != p[j].name
  {
    var l := Level(rows, d);
    var p := PlotData(l);
    LevelKeys(rows, d);
    PlotLabelsDistinct(l);
    forall i | 0 <= i < |p| && p[i].name != Others ensures !Small(p[i].share) {
      var k := PlotSource(l, i);
    }
  }

  /**
    The `Nb_URL` column of level `d` sums to the number of rows of the merged frame `full`
    that have `dir_1 .. dir_d`, and its average CTR is their clicks over their impressions.
    A report row gives several rows of `full` when several pages decode to its page.
  */
  lemma ReportCounts(ms: seq<MetricsRow>, us: seq<ParsedUrl>, d: nat)
    requires ParsedFrom(ms, us) && 1 <= d <= 3
    ensures var rows := Full(ms, us);
      && SumLevel(DepthReportOf(rows, d).table, Nb) == KeyedCount(rows, d)
      && DepthReportOf(rows, d).averageCtr == Ratio(KeyedTotal(rows, d, Clicks), KeyedTotal(rows, d, Impressions))
  {
    var rows := Full(ms, us);
    FullMatched(ms, us);
    LevelCounts(rows, d);
  }

  lemma LevelCounts(rows: seq<JoinedRow>, d: nat)
    requires forall j :: 0 <= j < |rows| ==> rows[j].nb == 1
    ensures SumLevel(Level(rows, d), Nb) == KeyedCount(rows, d)
    ensures AverageCtr(Level(rows, d)) == Ratio(KeyedTotal(rows, d, Clicks), KeyedTotal(rows, d, Impressions))
  {
    NbCountsRows(rows, d);
    SumLevelDerived(Pivot(rows, d), LevelOneTotal(rows), Nb);
    PivotTotals(rows, d, Nb);
    AverageCtrOfRows(rows, d);
  }
}
