/**
  The second half of `url_to_df` (app.py): the records become one DataFrame. Its columns
  are `url`, then the remaining base columns, then `dir_1 .. dir_K` and `last_dir`, then
  the `query_` columns in non-increasing order of how often they are filled; every row
  has a cell for every column, null where its record had no such key.
*/
module UrlTable {
  import opened Wrappers
  import opened Text
  import opened Seqs
  import opened Dicts
  import opened UrlSplit

  /** A DataFrame: its column order and one row per URL, each a cell for every column. */
  datatype Table = Table(columns: seq<Field>, rows: seq<map<Field, Option<Value>>>)

  /** `filter(regex='query_')`: the pattern occurs anywhere in the name. */
  predicate IsQueryColumn(f: Field)
  {
    Contains(f.Name(), "query_")
  }

  /** `filter(regex='^dir_')`: the name starts with the pattern. */
  predicate IsDirColumn(f: Field)
  {
    StartsWith(f.Name(), "dir_")
  }

  /** What is left of the frame after the query and directory columns are dropped. */
  predicate IsRemaining(f: Field)
  {
    !IsQueryColumn(f) && !IsDirColumn(f)
  }

  /** The kinds of column the three filters stand for. */
  predicate IsDirField(f: Field)
  {
    f.Dir?
  }

  predicate IsQueryField(f: Field)
  {
    f.Query?
  }

  predicate IsOtherField(f: Field)
  {
    !f.Dir? && !f.Query?
  }

  /** The keys of each URL's record. */
  function KeyLists(us: seq<ParsedUrl>): seq<seq<Field>>
  {
    seq(|us|, i requires 0 <= i < |us| => Fields(us[i]))
  }

  /** The columns of `pd.DataFrame(split_list)`: every key of every record, in order of first appearance. */
  function Union(us: seq<ParsedUrl>): seq<Field>
  {
    Merged(KeyLists(us))
  }

  /** The number of path segments of each URL. */
  function Depths(us: seq<ParsedUrl>): seq<nat>
  {
    seq(|us|, i requires 0 <= i < |us| => |Segments(us[i].path)|)
  }

  /** The largest number of path segments among the URLs. */
  function MaxDepth(us: seq<ParsedUrl>): nat
  {
    MaxOf(Depths(us))
  }

  /** The number of non-null cells. */
  function CountSome<T>(cells: seq<Option<T>>): nat
  {
    if cells == [] then 0
    else CountSome(cells[..|cells| - 1]) + if cells[|cells| - 1].Some? then 1 else 0
  }

  /** Column `f` of the frame, one cell per URL. */
  function Column(us: seq<ParsedUrl>, f: Field): seq<Option<Value>>
  {
    seq(|us|, i requires 0 <= i < |us| => FieldValue(us[i], f))
  }

  /** How many URLs have a value for `f` (`notna()` summed down a column). */
  function NonNull(us: seq<ParsedUrl>, f: Field): nat
  {
    CountSome(Column(us, f))
  }

  /** `notna().mean()` of column `f`. */
  function Fraction(us: seq<ParsedUrl>, f: Field): real
  {
    if |us| == 0 then 0.0 else NonNull(us, f) as real / |us| as real
  }

  function FractionKey(us: seq<ParsedUrl>): Field -> real
  {
    (f: Field) => Fraction(us, f)
  }

  /** The query columns in frame order, before sorting. */
  function QueryColumns(us: seq<ParsedUrl>): seq<Field>
  {
    Filter(Union(us), IsQueryField)
  }

  /** The directory columns and, when there are any, `last_dir` after them. */
  function DirBlock(us: seq<ParsedUrl>): seq<Field>
  {
    var ds := Filter(Union(us), IsDirField);
    if ds == [] then [] else ds + [LastDir]
  }

  /** The columns before the query block: `url`, the remaining base columns, the directory block. */
  function Prefix(us: seq<ParsedUrl>): seq<Field>
  {
    [Url] + Filter(Union(us), IsOtherField) + DirBlock(us)
  }

  /**
    `qs` is what `sort_values(ascending=False)` may return for the query columns: the same
    columns, in non-increasing order of filled fraction (pandas' default sort is not
    stable, so columns with equal fractions may come in any order).
  */
  ghost predicate QueryOrder(us: seq<ParsedUrl>, qs: seq<Field>)
  {
    multiset(qs) == multiset(QueryColumns(us)) && Descending(qs, FractionKey(us))
  }

  /** A column order `url_to_df` may produce. */
  ghost predicate IsLayout(us: seq<ParsedUrl>, cols: seq<Field>)
  {
    var pre := Prefix(us);
    |pre| <= |cols| && cols[..|pre|] == pre && QueryOrder(us, cols[|pre|..])
  }

  /** The last value of `cols` in the row of `u`, as `fillna(method='ffill', axis=1).iloc[:, -1]` finds it. */
  function LastNonNull(u: ParsedUrl, cols: seq<Field>): Option<Value>
  {
    if cols == [] then None
    else
      var v := FieldValue(u, cols[|cols| - 1]);
      if v.Some? then v else LastNonNull(u, cols[..|cols| - 1])
  }

  /** The last path segment, if the path has any. */
  function LastDirValue(u: ParsedUrl): Option<Value>
  {
    var segs := Segments(u.path);
    if segs == [] then None else Some(Str(segs[|segs| - 1]))
  }

  /** The cell of the row of `u` in column `c`. */
  function Cell(u: ParsedUrl, c: Field): Option<Value>
  {
    match c
    case Url => Some(Str(u.url))
    case LastDir => LastDirValue(u)
    case _ => FieldValue(u, c)
  }

  /** Where a column kind sits in the concatenation: url, base, dirs, last_dir, queries. */
  function Rank(f: Field): nat
  {
    match f
    case Url => 0
    case Dir(_) => 2
    case LastDir => 3
    case Query(_) => 4
    case _ => 1
  }

  predicate RanksAscending(s: seq<Field>)
  {
    forall i, j :: 0 <= i < j < |s| ==> Rank(s[i]) <= Rank(s[j])
  }

  /** The name-based filters of `url_to_df` select exactly the directory, query and other columns. */
  lemma RegexFilters(s: seq<Field>)
    ensures Filter(s, IsQueryColumn) == Filter(s, IsQueryField)
    ensures Filter(s, IsDirColumn) == Filter(s, IsDirField)
    ensures Filter(s, IsRemaining) == Filter(s, IsOtherField)
  {
    forall f ensures IsQueryColumn(f) == IsQueryField(f) && IsDirColumn(f) == IsDirField(f) {
      FilterPatterns(f);
    }
    FilterCongruent(s, IsQueryColumn, IsQueryField);
    FilterCongruent(s, IsDirColumn, IsDirField);
    FilterCongruent(s, IsRemaining, IsOtherField);
  }

  /** The frame's columns are the fields some URL has a value for. */
  lemma UnionValues(us: seq<ParsedUrl>, f: Field)
    requires forall i :: 0 <= i < |us| ==> DistinctNames(us[i].params)
    ensures f in Union(us) <==> exists i :: 0 <= i < |us| && FieldValue(us[i], f).Some?
  {
    MergedMembers(KeyLists(us), f);
    forall i | 0 <= i < |us| ensures f in KeyLists(us)[i] <==> FieldValue(us[i], f).Some? {
      RecordKeys(us[i]);
    }
  }

  /** Merging `dir_1 .. dir_a` with `dir_1 .. dir_b` gives `dir_1 .. dir_max(a, b)`. */
  lemma {:induction false} AddNewDirSpans(a: nat, b: nat)
    ensures AddNew(DirSpan(a), DirSpan(b)) == DirSpan(if a < b then b else a)
    decreases b
  {
    if b > 0 {
      var init := DirSpan(b - 1);
      assert DirSpan(b) == init + [Dir(b)];
      assert DirSpan(b)[..b - 1] == init;
      AddNewDirSpans(a, b - 1);
      DirSpanMembers(if a < b - 1 then b - 1 else a, Dir(b));
      if a < b {
        assert DirSpan(b - 1) + [Dir(b)] == DirSpan(b);
      }
    }
  }

  /** Keys ahead of `dir_1 .. dir_k` that are not directories drop out of the directory filter. */
  lemma DirsOfKeys(front: seq<Field>, k: nat)
    requires forall i :: 0 <= i < |front| ==> !front[i].Dir?
    ensures Filter(front + DirSpan(k), IsDirField) == DirSpan(k)
  {
    FilterConcat(front, DirSpan(k), IsDirField);
    FilterNone(front, IsDirField);
    FilterAll(DirSpan(k), IsDirField);
  }

  /**
    Merging key lists whose directory keys are `dir_1 .. dir_d` for each list's own `d`
    leaves `dir_1 .. dir_D` as the directory keys, for the largest `d`.
  */
  lemma {:induction false} MergedDirs(kss: seq<seq<Field>>, ds: seq<nat>)
    requires |kss| == |ds|
    requires forall i :: 0 <= i < |kss| ==> Filter(kss[i], IsDirField) == DirSpan(ds[i])
    ensures Filter(Merged(kss), IsDirField) == DirSpan(MaxOf(ds))
    decreases |kss|
  {
    if kss != [] {
      var n := |kss| - 1;
      var m := Merged(kss[..n]);
      assert forall i :: 0 <= i < n ==> kss[..n][i] == kss[i] && ds[..n][i] == ds[i];
      MergedDirs(kss[..n], ds[..n]);
      assert Filter(kss[n], IsDirField) == DirSpan(ds[n]);
      FilterAddNew(m, kss[n], IsDirField);
      AddNewDirSpans(MaxOf(ds[..n]), ds[n]);
      assert Merged(kss) == AddNew(m, kss[n]);
      assert MaxOf(ds) == if MaxOf(ds[..n]) < ds[n] then ds[n] else MaxOf(ds[..n]);
    } else {
      assert DirSpan(0) == [];
    }
  }

  /** The directory columns of the frame are `dir_1 .. dir_K`, in that order, for the deepest path. */
  lemma UnionDirs(us: seq<ParsedUrl>)
    ensures Filter(Union(us), IsDirField) == DirSpan(MaxDepth(us))
  {
    var kss, ds := KeyLists(us), Depths(us);
    forall i | 0 <= i < |kss| ensures Filter(kss[i], IsDirField) == DirSpan(ds[i]) {
      DirsOfKeys(BaseFields(us[i]) + QueryFields(us[i].params), ds[i]);
    }
    MergedDirs(kss, ds);
  }

  /** No URL has more segments than the deepest one. */
  lemma MaxDepthBound(us: seq<ParsedUrl>, i: nat)
    requires i < |us|
    ensures |Segments(us[i].path)| <= MaxDepth(us)
  {
    MaxOfBound(Depths(us), i);
  }

  /**
    The forward fill over `dir_1 .. dir_K` ends on the last path segment when the row has
    at most K segments, and on null when it has none.
  */
  lemma {:induction false} LastNonNullDirSpan(u: ParsedUrl, k: nat)
    requires |Segments(u.path)| <= k
    ensures LastNonNull(u, DirSpan(k)) == LastDirValue(u)
    decreases k
  {
    if k > 0 {
      assert DirSpan(k)[..k - 1] == DirSpan(k - 1);
      if k > |Segments(u.path)| {
        LastNonNullDirSpan(u, k - 1);
      }
    }
  }

  /**
    `last_dir` is the highest-indexed directory the row has: null exactly when it has none,
    and otherwise the value of the `dir_i` after which no directory is filled.
  */
  lemma LastDirIsHighest(u: ParsedUrl)
    ensures LastDirValue(u).None? <==> forall i: nat :: FieldValue(u, Dir(i)).None?
    ensures forall i: nat ::
      (FieldValue(u, Dir(i)).Some? && forall j: nat :: j > i ==> FieldValue(u, Dir(j)).None?) ==>
      LastDirValue(u) == FieldValue(u, Dir(i))
  {
    var k := |Segments(u.path)|;
    if k > 0 {
      assert FieldValue(u, Dir(k)).Some?;
    }
    forall i: nat | FieldValue(u, Dir(i)).Some? && (forall j: nat :: j > i ==> FieldValue(u, Dir(j)).None?)
      ensures LastDirValue(u) == FieldValue(u, Dir(i))
    {
    }
  }

  /** The key `sort_values` sorts by is the filled fraction, so sorting gives a valid query order. */
  lemma SortedQueryOrder(us: seq<ParsedUrl>)
    ensures QueryOrder(us, SortDescending(QueryColumns(us), FractionKey(us)))
  {
    SortDescendingOrdered(QueryColumns(us), FractionKey(us));
  }

  /** At most every cell is filled, and a column with a filled cell has a positive count. */
  lemma {:induction false} CountSomeBound<T>(cells: seq<Option<T>>)
    ensures CountSome(cells) <= |cells|
    ensures (exists i :: 0 <= i < |cells| && cells[i].Some?) ==> CountSome(cells) > 0
    decreases |cells|
  {
    if cells != [] {
      var init := cells[..|cells| - 1];
      CountSomeBound(init);
      if exists i :: 0 <= i < |cells| && cells[i].Some? {
        var i :| 0 <= i < |cells| && cells[i].Some?;
        if i < |init| {
          assert init[i] == cells[i];
        }
      }
    }
  }

  /** The filled fraction of every column of the frame is in (0, 1]. */
  lemma ColumnFractions(us: seq<ParsedUrl>, f: Field)
    requires forall i :: 0 <= i < |us| ==> DistinctNames(us[i].params)
    requires f in Union(us)
    ensures 0.0 < Fraction(us, f) <= 1.0
  {
    UnionValues(us, f);
    var i :| 0 <= i < |us| && FieldValue(us[i], f).Some?;
    assert Column(us, f)[i].Some?;
    CountSomeBound(Column(us, f));
    RatioBounds(NonNull(us, f), |us|);
  }

  lemma RatioBounds(a: nat, b: nat)
    requires 0 < a <= b
    ensures 0.0 < a as real / b as real <= 1.0
  {
  }

  /** The loop of `url_to_df`: `split_list`, one record per URL. */
  method SplitAll(urls: seq<ParsedUrl>) returns (records: seq<Record>)
    requires forall i :: 0 <= i < |urls| ==> DistinctNames(urls[i].params)
    ensures |records| == |urls|
    ensures forall i :: 0 <= i < |urls| ==> records[i].order == Fields(urls[i])
    ensures forall i, f :: 0 <= i < |urls| ==> records[i].Get(f) == FieldValue(urls[i], f)
  {
    records := [];
    for i := 0 to |urls|
      invariant |records| == i
      invariant forall j :: 0 <= j < i ==> records[j].order == Fields(urls[j])
      invariant forall j, f :: 0 <= j < i ==> records[j].Get(f) == FieldValue(urls[j], f)
    {
      var rec := SplitUrl(urls[i]);
      records := records + [rec];
    }
  }

  /** The columns `pd.DataFrame(split_list)` gets: each record's keys, new ones appended. */
  method ColumnsOf(urls: seq<ParsedUrl>, records: seq<Record>) returns (all: seq<Field>)
    requires |records| == |urls|
    requires forall i :: 0 <= i < |urls| ==> records[i].order == Fields(urls[i])
    ensures all == Union(urls)
  {
    ghost var kss := KeyLists(urls);
    all := [];
    for i := 0 to |urls|
      invariant all == Merged(kss[..i])
    {
      assert records[i].order == kss[i];
      all := AddKeys(all, records[i].order);
      MergedStep(kss, i);
    }
    assert kss[..|urls|] == kss;
  }

  /** The keys of one record appended to the columns found so far, each new one once. */
  method AddKeys(acc: seq<Field>, keys: seq<Field>) returns (all: seq<Field>)
    ensures all == AddNew(acc, keys)
  {
    all := acc;
    for j := 0 to |keys|
      invariant all == AddNew(acc, keys[..j])
    {
      AddNewStep(acc, keys, j);
      if keys[j] !in all {
        all := all + [keys[j]];
      }
    }
    assert keys[..|keys|] == keys;
  }

  /**
    One row of the result: `url`, the record's own values, null for the keys it lacks,
    and `last_dir` forward-filled along the directory columns.
  */
  method RowOf(u: ParsedUrl, rec: Record, cols: seq<Field>, dirCols: seq<Field>, depth: nat)
    returns (row: map<Field, Option<Value>>)
    requires forall f :: rec.Get(f) == FieldValue(u, f)
    requires dirCols == DirSpan(depth) && |Segments(u.path)| <= depth
    ensures forall c :: c in row <==> c in cols
    ensures forall c :: c in cols ==> row[c] == Cell(u, c)
  {
    var last: Option<Value> := None;
    for j := 0 to |dirCols|
      invariant last == LastNonNull(u, dirCols[..j])
    {
      assert dirCols[..j + 1][..j] == dirCols[..j];
      var v := rec.Get(dirCols[j]);
      if v.Some? {
        last := v;
      }
    }
    assert dirCols[..|dirCols|] == dirCols;
    LastNonNullDirSpan(u, depth);
    row := map c | c in cols :: if c == Url then Some(Str(u.url)) else if c == LastDir then last else rec.Get(c);
  }

  /** One row per URL, over the columns `cols`. */
  method RowsOf(urls: seq<ParsedUrl>, records: seq<Record>, cols: seq<Field>, dirCols: seq<Field>, depth: nat)
    returns (rows: seq<map<Field, Option<Value>>>)
    requires |records| == |urls|
    requires forall i, f :: 0 <= i < |urls| ==> records[i].Get(f) == FieldValue(urls[i], f)
    requires dirCols == DirSpan(depth) && depth == MaxDepth(urls)
    ensures |rows| == |urls|
    ensures forall i :: 0 <= i < |urls| ==> forall c :: c in rows[i] <==> c in cols
    ensures forall i, c :: 0 <= i < |urls| && c in cols ==> rows[i][c] == Cell(urls[i], c)
  {
    rows := [];
    for i := 0 to |urls|
      invariant |rows| == i
      invariant forall j :: 0 <= j < i ==> forall c :: c in rows[j] <==> c in cols
      invariant forall j, c :: 0 <= j < i && c in cols ==> rows[j][c] == Cell(urls[j], c)
    {
      MaxDepthBound(urls, i);
      var row := RowOf(urls[i], records[i], cols, dirCols, depth);
      rows := rows + [row];
    }
  }

  /**
    `url_to_df`: one record per URL (the loop), then the frame of all records, its query
    columns sorted by filled fraction, its directory columns followed by the forward-filled
    `last_dir`, and `url` inserted in front.
  */
  method UrlToDf(urls: seq<ParsedUrl>) returns (t: Table)
    requires forall i :: 0 <= i < |urls| ==> DistinctNames(urls[i].params)
    ensures IsLayout(urls, t.columns)
    ensures |t.rows| == |urls|
    ensures forall i :: 0 <= i < |urls| ==> forall c :: c in t.rows[i] <==> c in t.columns
    ensures forall i, c :: 0 <= i < |urls| && c in t.columns ==> t.rows[i][c] == Cell(urls[i], c)
  {
    var records := SplitAll(urls);
    var all := ColumnsOf(urls, records);
    RegexFilters(all);
    var queryCols := SortDescending(Filter(all, IsQueryColumn), FractionKey(urls));
    SortedQueryOrder(urls);
    var dirCols := Filter(all, IsDirColumn);
    var block := if dirCols == [] then [] else dirCols + [LastDir];
    var cols := [Url] + Filter(all, IsRemaining) + block + queryCols;
    assert cols[..|Prefix(urls)|] == Prefix(urls);
    assert cols[|Prefix(urls)|..] == queryCols;
    UnionDirs(urls);
    var depth := MaxDepth(urls);
    assert dirCols == DirSpan(depth);
    var rows := RowsOf(urls, records, cols, dirCols, depth);
    t := Table(cols, rows);
  }
}
