/**
  The join of the directory table with the Search Console report (app.py:121-126): seven
  columns of the URL table are selected, the report rows are right-merged onto them by
  `url == Landing Page`, and every joined row gets `nb = 1`.
*/
module MetricsJoin {
  import opened Wrappers
  import opened Text
  import opened Seqs
  import opened UrlSplit
  import opened UrlTable
  import opened TableLayout

  /** One row of the report after the renames: `Landing Page`, `Clicks`, `Impressions`. */
  datatype MetricsRow = MetricsRow(page: string, clicks: nat, impressions: nat)

  /** One row of `directories[['url','scheme','netloc','path','dir_1','dir_2','dir_3']]`. */
  datatype DirRow = DirRow(
    url: Option<string>, scheme: Option<string>, netloc: Option<string>, path: Option<string>,
    dirs: seq<Option<string>>)

  /** One row of `full`: the matched directory row (None: all its columns null), the report row, and `nb`. */
  datatype JoinedRow = JoinedRow(left: Option<DirRow>, page: string, clicks: nat, impressions: nat, nb: nat)

  /** The columns app.py:123 selects. */
  const Selected: seq<Field> := [Url, Scheme, Netloc, Path, Dir(1), Dir(2), Dir(3)]

  /** Every row of the frame has a cell for every column. */
  ghost predicate Rectangular(t: Table)
  {
    forall i, c :: 0 <= i < |t.rows| && c in t.columns ==> c in t.rows[i]
  }

  /** What `url_to_df` promises of its result for the URLs `us`. */
  ghost predicate FrameOf(us: seq<ParsedUrl>, t: Table)
  {
    && IsLayout(us, t.columns)
    && |t.rows| == |us|
    && (forall i :: 0 <= i < |us| ==> forall c :: c in t.rows[i] <==> c in t.columns)
    && (forall i, c :: 0 <= i < |us| && c in t.columns ==> t.rows[i][c] == Cell(us[i], c))
  }

  function TextOf(v: Option<Value>): Option<string>
  {
    if v.Some? && v.value.Str? then Some(v.value.s) else None
  }

  predicate Absent(t: Table, f: Field)
  {
    f !in t.columns
  }

  /** The selected columns the frame lacks, the ones a `KeyError` names. */
  function Missing(t: Table): seq<Field>
  {
    Filter(Selected, (f: Field) => Absent(t, f))
  }

  function SelectRow(row: map<Field, Option<Value>>): DirRow
    requires forall f :: f in Selected ==> f in row
  {
    DirRow(TextOf(row[Url]), TextOf(row[Scheme]), TextOf(row[Netloc]), TextOf(row[Path]),
      [TextOf(row[Dir(1)]), TextOf(row[Dir(2)]), TextOf(row[Dir(3)])])
  }

  /** `directories[[...]]`: the seven columns of every row, or a `KeyError` naming the missing ones. */
  function SelectDirs(t: Table): (r: Result<seq<DirRow>, seq<Field>>)
    requires Rectangular(t)
    ensures r.Err? <==> exists f :: f in Selected && f !in t.columns
    ensures r.Err? ==> forall f :: f in r.error <==> f in Selected && f !in t.columns
    ensures r.Ok? ==> |r.value| == |t.rows|
  {
    var missing := Missing(t);
    if missing != [] then
      assert missing[0] in missing;
      Err(missing)
    else
      Ok(seq(|t.rows|, i requires 0 <= i < |t.rows| => SelectRow(t.rows[i])))
  }

  /** The selection from the frame of `us` fails exactly when no path has three segments. */
  lemma SelectFromFrame(us: seq<ParsedUrl>, t: Table)
    requires forall i :: 0 <= i < |us| ==> DistinctNames(us[i].params)
    requires FrameOf(us, t)
    ensures Rectangular(t)
    ensures SelectDirs(t).Ok? <==> MaxDepth(us) >= 3
  {
    LayoutUrlFirst(us, t.columns);
    assert Url in t.columns;
    BaseColumns(us, t.columns, Scheme);
    BaseColumns(us, t.columns, Netloc);
    BaseColumns(us, t.columns, Path);
    DirColumns(us, t.columns, 1);
    DirColumns(us, t.columns, 2);
    DirColumns(us, t.columns, 3);
    var cols := t.columns;
    assert (Url in cols && Scheme in cols && Netloc in cols && Path in cols
      && Dir(1) in cols && Dir(2) in cols && Dir(3) in cols) <==> MaxDepth(us) >= 3;
    SelectedPresent(t);
  }

  /** The selection succeeds when each of its seven columns is present. */
  lemma SelectedPresent(t: Table)
    requires Rectangular(t)
    ensures SelectDirs(t).Ok? <==>
      (Url in t.columns && Scheme in t.columns && Netloc in t.columns && Path in t.columns
       && Dir(1) in t.columns && Dir(2) in t.columns && Dir(3) in t.columns)
  {
    assert forall f :: f in Selected <==> f in [Url, Scheme, Netloc, Path, Dir(1), Dir(2), Dir(3)];
  }

  /** The selected row of URL `i` holds its decoded text as `url`, its scheme, host and path, and its first three path segments. */
  lemma SelectedRows(us: seq<ParsedUrl>, t: Table)
    requires |t.rows| == |us|
    requires forall i, c :: 0 <= i < |us| && c in t.columns ==> c in t.rows[i] && t.rows[i][c] == Cell(us[i], c)
    requires Rectangular(t) && SelectDirs(t).Ok?
    ensures var rows := SelectDirs(t).value;
      && |rows| == |us|
      && forall i :: 0 <= i < |us| ==> rows[i] == DirRowOf(us[i])
  {
    SelectedPresent(t);
    var rows := SelectDirs(t).value;
    forall i | 0 <= i < |us| ensures rows[i] == DirRowOf(us[i]) {
      assert rows[i] == SelectRow(t.rows[i]);
      SelectedRow(us[i], t.rows[i]);
    }
  }

  lemma SelectedRow(u: ParsedUrl, row: map<Field, Option<Value>>)
    requires forall f :: f in Selected ==> f in row && row[f] == Cell(u, f)
    ensures SelectRow(row) == DirRowOf(u)
  {
    assert Url in Selected && Scheme in Selected && Netloc in Selected && Path in Selected;
    assert Dir(1) in Selected && Dir(2) in Selected && Dir(3) in Selected;
  }

  /** The selected row of one URL: its decoded text, three components and first three path segments. */
  function DirRowOf(u: ParsedUrl): DirRow
  {
    DirRow(Some(u.url), Some(u.scheme), Some(u.netloc), Some(u.path),
      [TextOf(FieldValue(u, Dir(1))), TextOf(FieldValue(u, Dir(2))), TextOf(FieldValue(u, Dir(3)))])
  }

  /** The directory cells of a URL's row are its path segments, and so never hold a '/'. */
  lemma DirRowOfSegments(u: ParsedUrl, k: nat)
    requires k < 3
    ensures |DirRowOf(u).dirs| == 3
    ensures DirRowOf(u).dirs[k].Some? <==> k < |Segments(u.path)|
    ensures DirRowOf(u).dirs[k].Some? ==> DirRowOf(u).dirs[k].value == Segments(u.path)[k] && '/' !in Segments(u.path)[k]
  {
    SegmentsRoundTrip(u.path);
  }

  /** The directory rows whose `url` is `key`. */
  function Matches(left: seq<DirRow>, key: string): seq<DirRow>
  {
    Filter(left, UrlIs(key))
  }

  /** The test `url == key` on a directory row. */
  function UrlIs(key: string): DirRow -> bool
  {
    (r: DirRow) => r.url == Some(key)
  }

  /** The joined rows of one report row: one per match, or one with null directory columns. */
  function JoinOne(left: seq<DirRow>, m: MetricsRow, key: string): seq<JoinedRow>
  {
    var ms := Matches(left, key);
    if ms == [] then [JoinedRow(None, m.page, m.clicks, m.impressions, 1)]
    else seq(|ms|, i requires 0 <= i < |ms| => JoinedRow(Some(ms[i]), m.page, m.clicks, m.impressions, 1))
  }

  /** `pd.merge(left, right, how='right')` on `key(Landing Page) == url`, then `nb = 1`. */
  function RightJoinOn(left: seq<DirRow>, ms: seq<MetricsRow>, key: string -> string): seq<JoinedRow>
  {
    if ms == [] then []
    else
      var m := ms[|ms| - 1];
      RightJoinOn(left, ms[..|ms| - 1], key) + JoinOne(left, m, key(m.page))
  }

  /** The join as app.py:124 writes it: the raw `Landing Page` against the decoded `url`. */
  function RightJoin(left: seq<DirRow>, ms: seq<MetricsRow>): seq<JoinedRow>
  {
    RightJoinOn(left, ms, (p: string) => p)
  }

  /** The join with the `Landing Page` decoded as the `url` column is. */
  function RightJoinDecoded(left: seq<DirRow>, ms: seq<MetricsRow>): seq<JoinedRow>
  {
    RightJoinOn(left, ms, Unquote)
  }

  /** Joined row `j` stems from report row `m`: its metrics, `nb = 1`, and a match or null directories when there is none. */
  ghost predicate FromRow(j: JoinedRow, m: MetricsRow, left: seq<DirRow>, key: string -> string)
  {
    && j.page == m.page && j.clicks == m.clicks && j.impressions == m.impressions && j.nb == 1
    && (j.left.Some? ==> j.left.value in Matches(left, key(m.page)))
    && (j.left.None? <==> Matches(left, key(m.page)) == [])
  }

  /** The joined rows `js` stem one for one from the report rows `ms`. */
  ghost predicate RowsFrom(js: seq<JoinedRow>, ms: seq<MetricsRow>, left: seq<DirRow>, key: string -> string)
  {
    |js| == |ms| && forall i :: 0 <= i < |ms| ==> FromRow(js[i], ms[i], left, key)
  }

  lemma JoinOneRows(left: seq<DirRow>, m: MetricsRow, key: string -> string)
    ensures |JoinOne(left, m, key(m.page))| >= 1
    ensures forall j :: 0 <= j < |JoinOne(left, m, key(m.page))| ==> FromRow(JoinOne(left, m, key(m.page))[j], m, left, key)
  {
    var ms := Matches(left, key(m.page));
    if ms != [] {
      var r := JoinOne(left, m, key(m.page));
      forall j | 0 <= j < |r| ensures FromRow(r[j], m, left, key) {
        assert r[j].left.value == ms[j];
      }
    }
  }

  /** The right join never has fewer rows than the report. */
  lemma {:induction false} JoinLength(left: seq<DirRow>, ms: seq<MetricsRow>, key: string -> string)
    ensures |RightJoinOn(left, ms, key)| >= |ms|
    decreases |ms|
  {
    if ms != [] {
      var m := ms[|ms| - 1];
      JoinLength(left, ms[..|ms| - 1], key);
      JoinOneRows(left, m, key);
    }
  }

  /** Every joined row stems from a report row, with its metrics, `nb = 1`, and a match or, when none matches, null directories. */
  lemma {:induction false} JoinOrigin(left: seq<DirRow>, ms: seq<MetricsRow>, key: string -> string, j: nat) returns (i: nat)
    requires j < |RightJoinOn(left, ms, key)|
    ensures i < |ms| && FromRow(RightJoinOn(left, ms, key)[j], ms[i], left, key)
    decreases |ms|
  {
    var n := |ms| - 1;
    var init, m := ms[..n], ms[n];
    var a, b := RightJoinOn(left, init, key), JoinOne(left, m, key(m.page));
    assert RightJoinOn(left, ms, key) == a + b;
    if j < |a| {
      assert (a + b)[j] == a[j];
      i := JoinOrigin(left, init, key, j);
      assert init[i] == ms[i];
    } else {
      assert (a + b)[j] == b[j - |a|];
      JoinOneRows(left, m, key);
      i := n;
    }
  }

  /** The join of a non-empty report: the join of all rows but the last, then the last row's joined rows. */
  lemma JoinSnoc(left: seq<DirRow>, ms: seq<MetricsRow>, key: string -> string)
    requires ms != []
    ensures RightJoinOn(left, ms, key) ==
      RightJoinOn(left, ms[..|ms| - 1], key) + JoinOne(left, ms[|ms| - 1], key(ms[|ms| - 1].page))
  {
  }

  /** The join of the first `k` report rows is a prefix of the whole join. */
  lemma {:induction false} JoinPrefix(left: seq<DirRow>, ms: seq<MetricsRow>, key: string -> string, k: nat)
    requires k <= |ms|
    ensures IsPrefix(RightJoinOn(left, ms[..k], key), RightJoinOn(left, ms, key))
    decreases |ms|
  {
    if k < |ms| {
      var n := |ms| - 1;
      assert ms[..n][..k] == ms[..k];
      JoinPrefix(left, ms[..n], key, k);
      JoinSnoc(left, ms, key);
      PrefixConcat(RightJoinOn(left, ms[..k], key), RightJoinOn(left, ms[..n], key), JoinOne(left, ms[n], key(ms[n].page)));
    } else {
      assert ms[..k] == ms;
      PrefixSelf(RightJoinOn(left, ms, key));
    }
  }

  /** Every report row survives the right join: its first joined row follows the rows of the report rows before it. */
  lemma JoinSurvives(left: seq<DirRow>, ms: seq<MetricsRow>, key: string -> string, i: nat)
    requires i < |ms|
    ensures var j := |RightJoinOn(left, ms[..i], key)|;
      j < |RightJoinOn(left, ms, key)| && FromRow(RightJoinOn(left, ms, key)[j], ms[i], left, key)
  {
    var a := RightJoinOn(left, ms[..i], key);
    var b := JoinOne(left, ms[i], key(ms[i].page));
    assert ms[..i + 1][..i] == ms[..i];
    assert RightJoinOn(left, ms[..i + 1], key) == a + b;
    JoinOneRows(left, ms[i], key);
    JoinPrefix(left, ms, key, i + 1);
    var r := RightJoinOn(left, ms, key);
    assert r[..|a + b|][|a|] == b[0];
  }

  /** Every `Landing Page` of `ms` matches at most one `url`. */
  ghost predicate AtMostOneMatch(left: seq<DirRow>, ms: seq<MetricsRow>, key: string -> string)
  {
    forall i :: 0 <= i < |ms| ==> |Matches(left, key(ms[i].page))| <= 1
  }

  lemma AtMostOneInit(left: seq<DirRow>, ms: seq<MetricsRow>, key: string -> string)
    requires ms != [] && AtMostOneMatch(left, ms, key)
    ensures AtMostOneMatch(left, ms[..|ms| - 1], key) && |Matches(left, key(ms[|ms| - 1].page))| <= 1
  {
    var init := ms[..|ms| - 1];
    assert forall i :: 0 <= i < |init| ==> init[i] == ms[i];
  }

  /** When every `Landing Page` matches at most one `url`, the join keeps the report's rows one for one. */
  lemma {:induction false} JoinUnique(left: seq<DirRow>, ms: seq<MetricsRow>, key: string -> string)
    requires AtMostOneMatch(left, ms, key)
    ensures RowsFrom(RightJoinOn(left, ms, key), ms, left, key)
    decreases |ms|
  {
    if ms != [] {
      var n := |ms| - 1;
      var init, m := ms[..n], ms[n];
      AtMostOneInit(left, ms, key);
      JoinUnique(left, init, key);
      JoinOneSingle(left, m, key);
      JoinSnoc(left, ms, key);
      SplitLast(ms);
      FromRowsSnoc(RightJoinOn(left, init, key), JoinOne(left, m, key(m.page)), init, m, left, key);
    }
  }

  /** A report row with at most one match gives one joined row. */
  lemma JoinOneSingle(left: seq<DirRow>, m: MetricsRow, key: string -> string)
    requires |Matches(left, key(m.page))| <= 1
    ensures |JoinOne(left, m, key(m.page))| == 1 && FromRow(JoinOne(left, m, key(m.page))[0], m, left, key)
  {
    JoinOneRows(left, m, key);
  }

  /** Joined rows matched one for one with report rows stay so with one more row on both sides. */
  lemma FromRowsSnoc(a: seq<JoinedRow>, b: seq<JoinedRow>, ms: seq<MetricsRow>, m: MetricsRow, left: seq<DirRow>, key: string -> string)
    requires RowsFrom(a, ms, left, key)
    requires |b| == 1 && FromRow(b[0], m, left, key)
    ensures RowsFrom(a + b, ms + [m], left, key)
  {
    forall i | 0 <= i < |ms + [m]| ensures FromRow((a + b)[i], (ms + [m])[i], left, key) {
      if i < |ms| {
        assert (a + b)[i] == a[i] && (ms + [m])[i] == ms[i];
      } else {
        assert (a + b)[i] == b[0] && (ms + [m])[i] == m;
      }
    }
  }

  /** `unquote` turns the escape `%20` into a space. */
  lemma UnquoteSpace(x: string, y: string)
    requires '%' !in x && '%' !in y
    ensures Unquote(x + "%20" + y) == x + " " + y
  {
    var e := "%20" + y;
    assert x + "%20" + y == x + e;
    UnquotePlainPrefix(x, e);
    assert Unquote(e) == " " + y by {
      assert EscapeAt(e) == 32;
      assert e[3..] == y;
      UnquotePlain(y);
    }
  }

  /**
    The as-written join loses a page whose text changes under decoding: its `url` cell is
    the decoded text, which the raw `Landing Page` does not equal, so the page's directory
    columns come out null; the decoded join finds the row.
  */
  lemma EscapedPageUnmatched(d: DirRow, m: MetricsRow)
    requires d.url == Some(Unquote(m.page)) && Unquote(m.page) != m.page
    ensures RightJoin([d], [m]) == [JoinedRow(None, m.page, m.clicks, m.impressions, 1)]
    ensures RightJoinDecoded([d], [m]) == [JoinedRow(Some(d), m.page, m.clicks, m.impressions, 1)]
  {
    var left := [d];
    assert left == [] + [d];
    assert Matches(left, m.page) == [];
    assert Matches(left, Unquote(m.page)) == [d];
    JoinSingle(left, m, (q: string) => q);
    JoinSingle(left, m, Unquote);
  }

  /** The parsed form of the page `http://x/a%20b/c/d/`: its decoded text and components. */
  function ExampleUrl(): ParsedUrl
  {
    ParsedUrl("http://x/a b/c/d/", "http", "x", "/a b/c/d/", "", "", Some("x"), None, [])
  }

  /** The example's path has the three segments `a b`, `c` and `d`. */
  lemma ExampleSegments()
    ensures Segments(ExampleUrl().path) == ["a b", "c", "d"]
  {
    var path, inner := "/a b/c/d/", "a b/c/d";
    assert path[1..] == inner + "/";
    assert LStrip(path, '/') == inner + "/";
    assert (inner + "/")[..|inner|] == inner;
    assert RStrip(inner + "/", '/') == inner;
    var parts := ["a b", "c", "d"];
    assert Join(parts[2..], "/") == "d";
    assert Join(parts[1..], "/") == "c/d";
    assert Join(parts, "/") == inner;
    SplitJoin(parts, '/');
  }

  /**
    The page `http://x/a%20b/c/d/` reaches the merge: its path has three segments, so the
    selection of `dir_1 .. dir_3` succeeds (`SelectFromFrame`). The as-written join then
    gives it null directories, and the decoded join gives it `a b`, `c` and `d`.
  */
  lemma EscapedPageExample()
    ensures var u, p := ExampleUrl(), "http://x/a%20b/c/d/";
      && Unquote(p) == u.url != p
      && MaxDepth([u]) == 3
      && DirRowOf(u).dirs == [Some("a b"), Some("c"), Some("d")]
      && RightJoin([DirRowOf(u)], [MetricsRow(p, 5, 10)]) == [JoinedRow(None, p, 5, 10, 1)]
      && RightJoinDecoded([DirRowOf(u)], [MetricsRow(p, 5, 10)]) == [JoinedRow(Some(DirRowOf(u)), p, 5, 10, 1)]
  {
    ExampleDecodes();
    ExampleDepth();
    ExampleRow();
    EscapedPageUnmatched(DirRowOf(ExampleUrl()), MetricsRow("http://x/a%20b/c/d/", 5, 10));
  }

  /** The example is three segments deep, so `dir_3` exists in its frame. */
  lemma ExampleDepth()
    ensures MaxDepth([ExampleUrl()]) == 3
  {
    ExampleSegments();
    assert Depths([ExampleUrl()]) == [3];
    assert [3][..0] == [];
  }

  /** The example's selected row: its decoded text and its three directories. */
  lemma ExampleRow()
    ensures DirRowOf(ExampleUrl()).url == Some("http://x/a b/c/d/")
    ensures DirRowOf(ExampleUrl()).dirs == [Some("a b"), Some("c"), Some("d")]
  {
    ExampleSegments();
  }

  /** `http://x/a%20b/c/d/` decodes to `http://x/a b/c/d/`, which is another text. */
  lemma ExampleDecodes()
    ensures Unquote("http://x/a%20b/c/d/") == "http://x/a b/c/d/" != "http://x/a%20b/c/d/"
  {
    var x, y := "http://x/a", "b/c/d/";
    ExamplePageParts();
    ExampleUrlParts();
    UnquoteSpace(x, y);
    assert "http://x/a%20b/c/d/"[10] != "http://x/a b/c/d/"[10];
  }

  lemma ExamplePageParts()
    ensures "http://x/a%20b/c/d/" == "http://x/a" + "%20" + "b/c/d/"
  {
  }

  lemma ExampleUrlParts()
    ensures "http://x/a b/c/d/" == "http://x/a" + " " + "b/c/d/"
  {
  }

  lemma JoinSingle(left: seq<DirRow>, m: MetricsRow, key: string -> string)
    ensures RightJoinOn(left, [m], key) == JoinOne(left, m, key(m.page))
  {
    assert [m][..0] == [];
  }

  /**
    With the report's own pages decoded on both sides, every report row finds its directory
    row; when no two pages decode alike, row `i` of the join is report row `i` with
    directory row `i`.
  */
  lemma DecodedJoinMatches(left: seq<DirRow>, ms: seq<MetricsRow>)
    requires |left| == |ms|
    requires forall i :: 0 <= i < |ms| ==> left[i].url == Some(Unquote(ms[i].page))
    ensures forall j :: 0 <= j < |RightJoinDecoded(left, ms)| ==> RightJoinDecoded(left, ms)[j].left.Some?
    ensures (forall i, k :: 0 <= i < k < |ms| ==> Unquote(ms[i].page) != Unquote(ms[k].page)) ==>
      |RightJoinDecoded(left, ms)| == |ms| &&
      forall i :: 0 <= i < |ms| ==> RightJoinDecoded(left, ms)[i].left == Some(left[i])
  {
    var r := RightJoinDecoded(left, ms);
    forall i | 0 <= i < |ms| ensures left[i] in Matches(left, Unquote(ms[i].page)) {
      assert left[i] in left;
    }
    forall j | 0 <= j < |r| ensures r[j].left.Some? {
      var i := JoinOrigin(left, ms, Unquote, j);
    }
    if forall i, k :: 0 <= i < k < |ms| ==> Unquote(ms[i].page) != Unquote(ms[k].page) {
      forall i | 0 <= i < |ms| ensures Matches(left, Unquote(ms[i].page)) == [left[i]] {
        OnlyMatch(left, ms, i);
      }
      JoinUnique(left, ms, Unquote);
    }
  }

  lemma OnlyMatch(left: seq<DirRow>, ms: seq<MetricsRow>, i: nat)
    requires |left| == |ms| && i < |ms|
    requires forall k :: 0 <= k < |ms| ==> left[k].url == Some(Unquote(ms[k].page))
    requires forall a, b :: 0 <= a < b < |ms| ==> Unquote(ms[a].page) != Unquote(ms[b].page)
    ensures Matches(left, Unquote(ms[i].page)) == [left[i]]
  {
    var p := UrlIs(Unquote(ms[i].page));
    forall k | 0 <= k < |left| && k != i ensures !p(left[k]) {
      if k < i {
        assert Unquote(ms[k].page) != Unquote(ms[i].page);
      } else {
        assert Unquote(ms[i].page) != Unquote(ms[k].page);
      }
    }
    FilterSingle(left, i, p);
  }

  /**
    The as-written join: a page whose raw text is no row's decoded `url` (any page holding
    an escape, when no other page decodes to its raw text) gets null directory columns.
  */
  lemma RawJoinMisses(left: seq<DirRow>, ms: seq<MetricsRow>, i: nat)
    requires |left| == |ms| && i < |ms|
    requires forall k :: 0 <= k < |ms| ==> left[k].url == Some(Unquote(ms[k].page))
    requires forall k :: 0 <= k < |ms| ==> Unquote(ms[k].page) != ms[i].page
    ensures forall j :: 0 <= j < |RightJoin(left, ms)| && RightJoin(left, ms)[j].page == ms[i].page ==>
      RightJoin(left, ms)[j].left.None?
  {
    var id := (p: string) => p;
    var r := RightJoin(left, ms);
    FilterNone(left, UrlIs(ms[i].page));
    forall j | 0 <= j < |r| && r[j].page == ms[i].page ensures r[j].left.None? {
      var k := JoinOrigin(left, ms, id, j);
    }
  }
}
