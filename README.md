# SEO Directories Analyzer — a verified model of its analysis core

The analyzer takes a Search Console "landing pages" export (one row per page with its
clicks and impressions) and reports how traffic is spread over the site's directories.
This project models the non-interface part of `app.py` in Dafny and proves what it computes.
The model covers four stages:

1. **`url_to_df`**. Each page becomes a record, built as a Python dict: its `urlsplit`
   components, a kept `hostname`/`port`, one `query_<name>` field per query parameter
   (values joined with `@@`), and `dir_1 .. dir_k` from the stripped path split at `/`.
   The records become one rectangular frame. Its columns are `url` first, then the other
   base columns, then the directory columns with a forward-filled `last_dir`, then the
   query columns ordered by how often they are filled (`UrlSplit`, `UrlTable`,
   `TableLayout`, over `Dicts` and `Text`).
2. **The join** (`MetricsJoin`). Seven columns are selected. The report is right-merged
   onto them by `url == Landing Page`, and every joined row gets `nb = 1`.
3. **The three levels** (`Levels`, `Rounding`). Rows are grouped by `(dir_1 .. dir_d)`.
   Clicks, impressions and `nb` are summed per group, and the groups are sorted by clicks.
   Each group then gets `Clicks_per_URL` (2 decimals), its CTR and `%_Clicks` (3 decimals).
   `%_Clicks` divides by the depth-1 total at every depth. Each depth also gets an average
   CTR.
4. **Pie data** (`Distribution`). Zero shares are dropped. Labels are the directories
   joined with `/`, and every slice below 0.005 is renamed `*others` in place.

`Pipeline.Analyze` chains the stages, with the corrected, decoded join of the finding
below. Its result is either the `KeyError` the column selection raises, naming the missing
columns, or the three depth reports.

The model's form follows the source:
- The per-URL loop and the dict it mutates are methods over a `Dict` value (`SplitUrl`,
  `BaseRecord`, `AddDirs`, `Dicts.Update`).
- Frame assembly is a method with loops (`UrlToDf`, `ColumnsOf`, `RowOf`).
- The `.loc[...] = '*others'` relabelling is a method on an `array` (`Relabel`).
- Grouping, sums and ratios are functions with lemmas.

`urlsplit` and `parse_qs` are library calls, so each URL comes in already parsed as a
`ParsedUrl`. The URL's text in that record is the decoded page (`Pipeline.ParsedFrom`),
and `Text.Unquote` models `unquote` for ASCII escapes. Ratios are exact `real`s. Rounding
is modelled exactly: to the nearest multiple of 10^-n, with halves going to the even
neighbour as numpy does.

## Behaviour worth knowing

- **Null keys.** `pivot_table` groups with `dropna=True`, so a row with a null among
  `dir_1 .. dir_d` is in no group at depth `d`, and its clicks count in no total of that
  depth (`Levels.KeyOf`, `Levels.KeyedTotal`).
- **Query column ties.** `sort_values(ascending=False)` leaves the order of query columns
  with equal fill fractions open, so the model accepts any order of tied columns
  (`UrlTable.QueryOrder`).
- **Column order.** `pd.concat([df, dirs_df, query_df], axis=1)` (app.py:65) puts the base
  columns first, then the directories with `last_dir`, then the query columns.
- **Port.** `if port:` leaves out port 0 as well as a missing port (`UrlSplit.KeptPort`).
- **Malformed input.** `urlsplit` (app.py:30) raises `ValueError` on an unbalanced IPv6
  bracket, and `split.port` (app.py:31) raises it on a non-numeric or out-of-range port
  such as `http://x:abc/` or `http://x:70000/`. Either stops the whole run. These library
  errors are left out (see below). Clicks are coerced only by `to_numeric`, which is also
  left out.

## Model

| member | source | states |
|---|---|---|
| Text.StripSpec | app.py:42 | `strip('/')` removes a run of `/` from each end and nothing else; the result neither starts nor ends with `/` |
| Text.JoinSplit | app.py:42 | joining the pieces of `split('/')` with `/` gives back the string |
| Text.SplitJoin | app.py:42 | pieces free of `/` are recovered by splitting their join |
| Text.SplitPieces | app.py:42 | no piece of a split holds the separator |
| Text.SplitFirstEmpty | app.py:42-43 | the first piece is empty exactly when the string is empty or starts with the separator |
| Text.SplitLastEmpty | app.py:42 | the last piece is empty exactly when the string is empty or ends with the separator |
| Text.DecimalInjective | app.py:44 | different directory numbers give different `'{}'.format(n)` spellings |
| Text.DecimalDigits | app.py:44 | the spelling of a number holds digits only |
| Text.UnquotePlain | app.py:27-30 | a text without `%` decodes to itself |
| Text.UnquoteShortens | app.py:27-30 | decoding never lengthens a text, and shortens it exactly when it holds an escape |
| UrlSplit.NamePrefixes | app.py:39-44 | directory columns are exactly the names starting `dir_`, query columns those starting `query_` |
| UrlSplit.NameInjective | app.py:33-45 | distinct fields have distinct column names |
| UrlSplit.FilterPatterns | app.py:49-57 | `filter(regex='query_')` picks exactly the query columns and `filter(regex='^dir_')` exactly the directory columns |
| UrlSplit.SegmentsRoundTrip | app.py:42-45 | the segments joined with `/` give the stripped path; there are none exactly when it is empty; none holds `/`; the first and last are non-empty, interior ones may be empty |
| UrlSplit.QueryCellOfParam | app.py:38-41 | the `query_n` cell of a parameter `n` is its values joined with `@@`, and only named parameters have one |
| UrlSplit.RecordKeys | app.py:29-46 | the record's keys are exactly the fields it holds a value for |
| UrlSplit.RecordKeysDistinct | app.py:29-46 | no key is inserted twice |
| UrlSplit.RecordValues | app.py:31-45 | each parameter gives `query_n` with its joined values; `hostname` is kept iff set, non-empty and different from `netloc`; `port` iff set and non-zero; `dir_i` exactly for `1 <= i <= k` |
| UrlSplit.AsDictValues | app.py:33 | `_asdict()` holds the five components and no hostname or port |
| UrlSplit.HostnameAdded | app.py:32-35 | after the hostname assignment the record holds every base value but the port, in insertion order |
| UrlSplit.PortAdded | app.py:31-37 | after the port assignment the record holds every base value, in insertion order |
| UrlSplit.BaseRecord | app.py:31-37 | `_asdict()` and the two assignments give a valid dict with the base values in insertion order |
| UrlSplit.SplitUrl | app.py:30-46 | one loop iteration builds the record whose keys, in insertion order, are the base, query and directory fields and whose values are the field values of the URL |
| UrlSplit.AddDirs | app.py:43-45 | `update` with the `dir_` entries appends `dir_1 .. dir_k` holding the segments |
| UrlSplit.LookupQueryEntries | app.py:39-41 | the `query_` entries hold each parameter's joined values and nothing else |
| Dicts.Dict.Put | app.py:35-37 | `d[k] = v` sets `k`, changes no other key, and appends `k` only when it is new |
| Dicts.Update | app.py:41-45 | `d.update(entries)` makes every key hold its last entry's value, else its old one, and appends new keys in order of first appearance |
| Dicts.AddNewMembers | app.py:47 | merging key lists keeps all keys of both sides and adds no other |
| Dicts.MergedMembers | app.py:47 | a frame column is a key of some record, and every key of every record is a column |
| Dicts.MergedDistinct | app.py:47 | no frame column occurs twice |
| UrlTable.SplitAll | app.py:28-46 | `split_list` has one record per URL, in order, each the URL's record |
| UrlTable.ColumnsOf | app.py:47 | the frame's columns are the records' keys merged in order of first appearance |
| UrlTable.AddKeys | app.py:47 | one record's keys are appended to the columns found so far, each new one once |
| UrlTable.RowOf | app.py:47-66 | a row has exactly the frame's columns: `url`, the record's values, null where the record has no key, and the forward-filled `last_dir` |
| UrlTable.RowsOf | app.py:47-66 | one such row per URL, in input order |
| UrlTable.UrlToDf | app.py:15-67 | the result's columns are a valid layout for the URLs, with one row per URL in input order, each holding its URL's cells |
| UrlTable.RegexFilters | app.py:49-59 | the name filters and the remaining columns are exactly the query, directory and other fields |
| UrlTable.UnionValues | app.py:47 | a field is a frame column exactly when some URL has a value for it |
| UrlTable.UnionDirs | app.py:47-57 | the directory columns of the frame are `dir_1 .. dir_K`, in order, for the deepest path |
| UrlTable.MaxDepthBound | app.py:47-57 | no URL has more segments than the deepest one |
| UrlTable.LastNonNullDirSpan | app.py:60-64 | the forward fill over `dir_1 .. dir_K` ends on the row's last segment, or on null when it has none |
| UrlTable.LastDirIsHighest | app.py:57-64 | `last_dir` is null exactly when the row has no directory, and otherwise it is the highest-indexed filled `dir_i` |
| UrlTable.SortedQueryOrder | app.py:49-55 | sorting the query columns by filled fraction gives a permutation in non-increasing fraction order |
| UrlTable.ColumnFractions | app.py:51-53 | every column's filled fraction is in (0, 1] |
| TableLayout.LayoutUrlFirst | app.py:66 | the first column is `url` |
| TableLayout.LayoutOrdered | app.py:56-66 | no column occurs twice, and the blocks come in the order url, base, directories, `last_dir`, queries |
| TableLayout.PrefixOrdered | app.py:56-65 | the columns before the queries are distinct and in block order |
| TableLayout.LayoutMembers | app.py:47-66 | the columns are `url`, `last_dir` when some path has a segment, and exactly the fields some record holds |
| TableLayout.DirColumns | app.py:57-64 | `dir_k` is a column exactly when some path has at least `k` segments |
| TableLayout.BaseColumns | app.py:33-47 | `scheme`, `netloc`, `path`, `query` and `fragment` are columns exactly when there is a URL |
| MetricsJoin.SelectDirs | app.py:123 | the selection fails exactly when one of the seven columns is absent, naming exactly the absent ones; on success it has one row per frame row |
| MetricsJoin.SelectFromFrame | app.py:122-123 | on a frame built by `url_to_df` the selection succeeds exactly when some path has three segments |
| MetricsJoin.SelectedRows | app.py:123 | selected row `i` holds URL `i`'s decoded text, scheme, host, path and first three segments |
| MetricsJoin.DirRowOfSegments | app.py:42-45 | a selected directory cell is filled exactly when the path has that many segments, holds that segment and contains no `/` |
| MetricsJoin.JoinOneRows | app.py:124-125 | a report row gives at least one joined row, each carrying its metrics, `nb = 1` and a match, or nulls when nothing matches |
| MetricsJoin.JoinLength | app.py:124 | the right join has at least as many rows as the report |
| MetricsJoin.JoinOrigin | app.py:124-125 | every joined row stems from a report row, with its metrics, `nb = 1`, a matching directory row or null directories exactly when none matches |
| MetricsJoin.JoinPrefix | app.py:124 | the join of the first `k` report rows is a prefix of the whole join, so the report's order is kept |
| MetricsJoin.JoinSurvives | app.py:124 | every report row survives the join, right after the rows of the report rows before it |
| MetricsJoin.JoinUnique | app.py:124-125 | when every page matches at most one `url`, the join has exactly one row per report row, in order |
| MetricsJoin.EscapedPageUnmatched | app.py:124 | a page whose text changes under decoding gets null directories from the as-written join and its row from the decoded join |
| MetricsJoin.EscapedPageExample | app.py:124 | `http://x/a%20b/c/d/` is three segments deep, so the selection succeeds; its selected row holds `a b`, `c` and `d`; the as-written join gives it null directories and the decoded one that row |
| MetricsJoin.ExampleSegments | app.py:42-45 | the path `/a b/c/d/` strips and splits into the segments `a b`, `c`, `d` |
| Pipeline.ExampleReachesMerge | app.py:122-124 | on the frame `url_to_df` builds for the example URL, the selection of app.py:123 yields its directory row, and the as-written merge on it gives the page null directories |
| Pipeline.SingleFrameSelect | app.py:122-123 | the frame of one URL at least three segments deep selects to exactly that URL's directory row |
| MetricsJoin.ExampleDecodes | app.py:27-30 | `http://x/a%20b/c/d/` decodes to `http://x/a b/c/d/`, a different text |
| MetricsJoin.RawJoinMisses | app.py:124 | in the as-written join, a page whose raw text is no row's decoded `url` gets only null directories |
| MetricsJoin.DecodedJoinMatches | app.py:124-125 | with pages decoded on both sides, every joined row has its directories; when no two pages decode alike, row `i` is report row `i` with directory row `i` |
| MetricsJoin.OnlyMatch | app.py:124 | when no two pages decode alike, the only directory row matching page `i` is row `i` |
| Levels.KeyOfSpec | app.py:131-134 | a row has a key at depth `d` exactly when `dir_1 .. dir_d` are all filled, and the key lists them |
| Levels.KeyOfShallower | app.py:131-154 | a row grouped at some depth is grouped at every smaller depth |
| Levels.KeysOfSpec | app.py:131-135 | the keys are distinct and are exactly the non-null `(dir_1 .. dir_d)` of the rows |
| Levels.PivotGroups | app.py:131-140 | the pivot has exactly one group per distinct key, holding that key's sums, in non-increasing order of `Clicks` |
| Levels.PivotTotals | app.py:131-145 | a pivot column sums to the measure's total over the rows with a key at that depth |
| Levels.SumGroupsPermutation | app.py:139 | sorting the groups leaves column sums unchanged |
| Levels.NbCountsRows | app.py:125-138 | with `nb = 1` on every row, `Nb_URL` summed counts the grouped rows |
| Levels.KeyedTotalDeeper | app.py:131-154 | deeper depths keep fewer rows, so their totals never exceed shallower ones |
| Levels.GroupNonEmpty | app.py:125-134 | every group collects at least one row's `nb = 1` |
| Levels.Ratio | app.py:141-145 | a ratio exists exactly when the divisor is non-zero, and then times the divisor gives the dividend |
| Levels.DeriveRow | app.py:141-146 | a derived row keeps the group's sums; `%_Clicks` is clicks over the total and the CTR clicks over impressions, each rounded to 3 decimals, undefined exactly when its divisor is 0, and otherwise within 0.0005 of the exact ratio; `Clicks_per_URL` is clicks over `Nb_URL` rounded to 2 decimals, within 0.005 of the exact ratio |
| Levels.LevelRows | app.py:141-190 | every level row holds its group's sums; `%_Clicks` is its clicks over the rows' depth-1 total and the CTR its clicks over its impressions, both rounded to 3 decimals, undefined exactly when the divisor is 0, the CTR within 0.0005 of the exact ratio; `Clicks_per_URL` is clicks over `Nb_URL` rounded to 2 decimals and always defined |
| Levels.LevelOrdered | app.py:139-140 | the level keeps the pivot's rows in non-increasing `Clicks` order |
| Levels.LevelOneTotalIsRows | app.py:145-188 | the share denominator at every depth is the total clicks of the rows with a `dir_1` |
| Levels.SumLevelDerived | app.py:141-147 | deriving the ratio columns leaves the sums of `Clicks`, `Impressions` and `Nb_URL` unchanged |
| Levels.AverageCtrOfRows | app.py:193-195 | the average CTR of a depth is the clicks over the impressions of all rows that depth keeps, undefined without impressions |
| Levels.ShareSumIsRatio | app.py:145-188 | the unrounded shares sum to the level's clicks over the depth-1 total |
| Levels.SharesSum | app.py:145-188 | the unrounded shares sum to 1 at depth 1 and to at most 1 at depths 2 and 3 |
| Rounding.RoundError | app.py:142-146 | a rounded value is within half a unit of the last kept decimal |
| Rounding.RoundIdempotent | app.py:142-146 | rounding a rounded value changes nothing |
| Rounding.RoundMonotone | app.py:142-146 | rounding keeps order |
| Rounding.RoundNonNegative | app.py:142-146 | a non-negative value rounds to a non-negative value |
| Rounding.NearestError | app.py:142-146 | the nearest integer is at most one half away |
| Rounding.RoundsToZero | app.py:146 | a share rounds to 0 at three decimals exactly when it is at most 0.0005 |
| Rounding.RoundsBelowFiveThousandths | app.py:146 | a share rounds below 0.005 exactly when it is at most 0.0045 |
| Distribution.Label | app.py:207-216 | the label of a key of 1, 2 or 3 directories is them joined with `/` |
| Distribution.Relabel | app.py:200-217 | relabelling in place renames exactly the slices below 0.005 to `*others`, keeping every share and the slice count |
| Distribution.Plot | app.py:198-218 | the pie data is the level without zero shares, labelled and relabelled |
| Distribution.SharesFilter | app.py:199 | dropping the zero-share rows and then reading the shares reads the non-zero shares |
| Distribution.PlotShares | app.py:198-218 | the pie's values are exactly the level's non-zero shares in order; no value is 0 |
| Distribution.PlotSource | app.py:198-218 | each slice comes from a kept level row: same share, named `*others` exactly when below 0.005, otherwise a name that splits at `/` back into the row's directories |
| Distribution.PlotLabelsDistinct | app.py:205-217 | rows with different keys give slices with different names, `*others` aside |
| Distribution.SliceThresholds | app.py:146-200 | a group leaves the pie exactly when its unrounded share is at most 0.0005, and is named `*others` exactly when it is at most 0.0045 |
| Pipeline.Analyze | app.py:121-218 | for pages `urlsplit` parses, the analysis fails exactly when no path has three segments, naming exactly the missing columns; otherwise it returns the three depth reports of the frame joined on decoded pages |
| Pipeline.FrameSelect | app.py:122-123 | the selection from the frame of the URLs is its error or the directory rows of the URLs |
| Pipeline.SelectErrors | app.py:123 | the `KeyError` names exactly the missing columns |
| Pipeline.SelectedAbsent | app.py:123 | a selected column is absent exactly when it is `dir_k` beyond the deepest path, or a base column with no URL at all |
| Pipeline.Depth | app.py:131-218 | one depth's table, average CTR and pie, built with the in-place relabelling |
| Pipeline.FullMatched | app.py:124-125 | every row of `full` joined on decoded pages has `nb = 1` and its directories; when no two pages decode alike, row `i` is report row `i` with URL `i`'s directories |
| Pipeline.FullRowAt | app.py:124-125 | under the same condition, row `i` of `full` joined on decoded pages is exactly report row `i` joined with URL `i`'s directory row |
| Pipeline.FullDirCell | app.py:42-45 | a directory cell of `full` joined on decoded pages never holds a `/` |
| Pipeline.LevelKeys | app.py:131-140 | the keys of a level at depth `d` are `d` directory names without `/`, no two alike |
| Pipeline.ReportPieNames | app.py:198-218 | with the join on decoded pages, in every pie no two slices other than `*others` share a name, so the chart never merges two directories |
| Pipeline.ReportCounts | app.py:125-195 | `Nb_URL` of level `d` sums to the number of rows of the merged frame `full` joined on decoded pages that have `dir_1 .. dir_d`, and the average CTR is their clicks over their impressions |
| Pipeline.LevelCounts | app.py:125-195 | the same for any rows with `nb = 1` |

## Left out

- The Streamlit interface and its texts, expanders and uploader (app.py:70-113, 128) are not
  modelled, because they do not compute anything the analysis uses.
- Reading the CSV and renaming its headers (app.py:117-120) is I/O. Each report row comes
  in as a `MetricsRow` with the page, clicks and impressions.
- `pd.to_numeric` (app.py:126) is not modelled: clicks and impressions are taken as natural numbers.
- `urlsplit` and `parse_qs` (app.py:30, 38) are library code. Their results are the
  `ParsedUrl` input. Names are assumed distinct, as in the dict `parse_qs` returns.
- urlsplit/.port errors: pages on which `urlsplit` or `split.port` (app.py:30-31) raise
  `ValueError` (an unbalanced IPv6 bracket, a non-numeric or out-of-range port) have no
  `ParsedUrl`, so the model has no such failure. The source stops there, and
  `Pipeline.Analyze` covers only inputs whose every page parses.
- `url_to_df`'s `decode=False` path and its single-string argument (app.py:25-27) are not
  modelled, because the app always passes a list and decodes.
- Text.Unquote: only `%XX` escapes of ASCII characters are decoded. Multi-byte UTF-8 escape
  sequences, and the replacement of invalid ones, are left as they are.
- Levels.Ratio: a division by zero is `None`. This merges pandas' NaN (0 / 0) with its
  infinity (clicks over zero impressions), so nothing here tells the two apart.
- Floating point is not modelled. Ratios are exact reals and rounding is exact half-to-even
  rounding, so float representation errors near the 0.0005 and 0.0045 thresholds are outside the model.
- Levels.Pivot: it fixes one order among groups with equal `Clicks`, while pandas' default
  sort promises none. Every lemma uses only the non-increasing order and the permutation.
- The column renames, `droplevel` and `reset_index` calls (app.py:135-140) are not modelled.
  Their only effect is on names, and the `LevelRow` fields carry the columns.
- `na_position='last'` (app.py:139) has no effect here, because sums of natural numbers are never null.
- `squeeze()` (app.py:64) on a one-row frame is not modelled separately, because a scalar
  assigned to `last_dir` holds the same value as the one-row series.
- The pie rendering (`px.pie`, `st.plotly_chart`, app.py:201-202, 210-211, 219-220) and the
  Excel export (app.py:222-311) produce output only and are not modelled.
- Pipeline.Analyze: it joins on the decoded page, which is the corrected join of the
  finding below. The as-written join is `MetricsJoin.RightJoin`. `Pipeline.Full` is built
  with the corrected join, and so is every lemma over it: `Pipeline.FullMatched`,
  `Pipeline.FullRowAt`, `Pipeline.FullDirCell`, `Pipeline.ReportPieNames` and
  `Pipeline.ReportCounts`. In the frame `full` as written, a page with a `%` escape has
  null directories instead.

## Findings

| source | as written | input that shows it | evidently intended | confidence | as-written member | corrected member |
|---|---|---|---|---|---|---|
| app.py:124 | `url` holds `unquote(page)`, but the merge compares it with the raw `Landing Page`, so a page holding a `%` escape matches no row and gets null directories | a report with the single page `http://x/a%20b/c/d/`, deep enough to pass the selection at app.py:123 | every page finds its own row, comparing decoded text on both sides | medium, not executed | MetricsJoin.RightJoin (MetricsJoin.EscapedPageExample, Pipeline.ExampleReachesMerge, MetricsJoin.RawJoinMisses) | MetricsJoin.RightJoinDecoded (MetricsJoin.DecodedJoinMatches, Pipeline.FullMatched) |
