/**
  What every column order `url_to_df` may produce has in common: `url` first, no column
  twice, the blocks in the order url, base, directories, `last_dir`, queries, and exactly
  the columns some record has a value for (plus `url`, and `last_dir` when some path has
  a segment).
*/
module TableLayout {
  import opened Seqs
  import opened Dicts
  import opened UrlSplit
  import opened UrlTable

  /** Every element of `s` has a rank in `lo .. hi`. */
  predicate RanksWithin(s: seq<Field>, lo: nat, hi: nat)
  {
    forall i :: 0 <= i < |s| ==> lo <= Rank(s[i]) <= hi
  }

  /** Two blocks, each in rank order and without repeats, the first of lower rank than the second. */
  lemma RankedConcat(a: seq<Field>, b: seq<Field>, lo: nat, mid: nat, hi: nat)
    requires Distinct(a) && Distinct(b) && RanksAscending(a) && RanksAscending(b)
    requires lo <= mid < hi
    requires RanksWithin(a, lo, mid) && RanksWithin(b, mid + 1, hi)
    ensures Distinct(a + b) && RanksAscending(a + b) && RanksWithin(a + b, lo, hi)
  {
    var s := a + b;
    forall i, j | 0 <= i < j < |s| ensures s[i] != s[j] && Rank(s[i]) <= Rank(s[j]) {
      if j < |a| {
        assert s[i] == a[i] && s[j] == a[j];
      } else if i < |a| {
        assert s[i] == a[i] && s[j] == b[j - |a|];
      } else {
        assert s[i] == b[i - |a|] && s[j] == b[j - |a|];
      }
    }
    forall i | 0 <= i < |s| ensures lo <= Rank(s[i]) <= hi {
      if i < |a| {
        assert s[i] == a[i];
      } else {
        assert s[i] == b[i - |a|];
      }
    }
  }

  /** A block of one rank is in rank order. */
  lemma OneRank(s: seq<Field>, r: nat)
    requires RanksWithin(s, r, r)
    ensures RanksAscending(s)
  {
  }

  /** A record never holds `url` or `last_dir`. */
  lemma FieldsKinds(u: ParsedUrl, f: Field)
    requires f in Fields(u)
    ensures f != Url && f != LastDir
  {
    QueryFieldsMembers(u.params, f);
    DirSpanMembers(|Segments(u.path)|, f);
  }

  /** The frame built from the records has no `url` or `last_dir` column: those are added afterwards. */
  lemma UnionKinds(us: seq<ParsedUrl>, f: Field)
    requires f in Union(us)
    ensures f != Url && f != LastDir
  {
    MergedMembers(KeyLists(us), f);
    var i :| 0 <= i < |us| && f in KeyLists(us)[i];
    FieldsKinds(us[i], f);
  }

  /** The frame has `dir_1 .. dir_K` and then `last_dir` when some path has K > 0 segments, and no directory block otherwise. */
  lemma DirBlockShape(us: seq<ParsedUrl>)
    ensures DirBlock(us) == if MaxDepth(us) == 0 then [] else DirSpan(MaxDepth(us)) + [LastDir]
  {
    UnionDirs(us);
  }

  /** The first column is `url`. */
  lemma LayoutUrlFirst(us: seq<ParsedUrl>, cols: seq<Field>)
    requires IsLayout(us, cols)
    ensures |cols| >= 1 && cols[0] == Url
  {
    assert cols[..|Prefix(us)|][0] == Prefix(us)[0];
  }

  /** The remaining base columns: no repeats, all of rank 1. */
  lemma OtherBlock(us: seq<ParsedUrl>)
    ensures Distinct(Filter(Union(us), IsOtherField)) && RanksWithin(Filter(Union(us), IsOtherField), 1, 1)
  {
    var o := Filter(Union(us), IsOtherField);
    MergedDistinct(KeyLists(us));
    FilterDistinct(Union(us), IsOtherField);
    forall i | 0 <= i < |o| ensures Rank(o[i]) == 1 {
      assert o[i] in o;
      UnionKinds(us, o[i]);
    }
  }

  /** The directory columns: no repeats, all of rank 2. */
  lemma DirColumnsBlock(us: seq<ParsedUrl>)
    ensures Distinct(Filter(Union(us), IsDirField)) && RanksWithin(Filter(Union(us), IsDirField), 2, 2)
  {
    MergedDistinct(KeyLists(us));
    FilterDistinct(Union(us), IsDirField);
  }

  /** A valid order of the query columns: no repeats, all of rank 4. */
  lemma QueryBlock(us: seq<ParsedUrl>, q: seq<Field>)
    requires QueryOrder(us, q)
    ensures Distinct(q) && RanksWithin(q, 4, 4)
  {
    MergedDistinct(KeyLists(us));
    FilterDistinct(Union(us), IsQueryField);
    PermutationDistinct(QueryColumns(us), q);
    forall i | 0 <= i < |q| ensures Rank(q[i]) == 4 {
      assert q[i] in multiset(q);
      assert q[i] in QueryColumns(us);
    }
  }

  /** The columns ahead of the queries: no repeats, ranks 0 to 3 in order. */
  lemma PrefixOrdered(us: seq<ParsedUrl>)
    ensures Distinct(Prefix(us)) && RanksAscending(Prefix(us)) && RanksWithin(Prefix(us), 0, 3)
  {
    var o, ds := Filter(Union(us), IsOtherField), Filter(Union(us), IsDirField);
    OtherBlock(us);
    DirColumnsBlock(us);
    OneRank(o, 1);
    OneRank(ds, 2);
    var a := [Url] + o;
    RankedConcat([Url], o, 0, 0, 1);
    if ds == [] {
      assert Prefix(us) == a;
    } else {
      var b := a + ds;
      RankedConcat(a, ds, 0, 1, 2);
      RankedConcat(b, [LastDir], 0, 2, 3);
      assert Prefix(us) == b + [LastDir];
    }
  }

  /** No column occurs twice, and the blocks come in the order url, base, directories, `last_dir`, queries. */
  lemma LayoutOrdered(us: seq<ParsedUrl>, cols: seq<Field>)
    requires IsLayout(us, cols)
    ensures Distinct(cols)
    ensures RanksAscending(cols)
  {
    var pre := Prefix(us);
    var q := cols[|pre|..];
    PrefixOrdered(us);
    QueryBlock(us, q);
    OneRank(q, 4);
    RankedConcat(pre, q, 0, 3, 4);
    assert cols == pre + q;
  }

  /**
    The columns are `url`, `last_dir` when some path has a segment, and exactly the fields
    some record has a value for: every key of every record becomes a column.
  */
  lemma LayoutMembers(us: seq<ParsedUrl>, cols: seq<Field>, f: Field)
    requires forall i :: 0 <= i < |us| ==> DistinctNames(us[i].params)
    requires IsLayout(us, cols)
    ensures f in cols <==>
      || f == Url
      || (f == LastDir && MaxDepth(us) > 0)
      || exists i :: 0 <= i < |us| && FieldValue(us[i], f).Some?
  {
    var all := Union(us);
    LayoutBlocks(us, cols, f);
    UnionValues(us, f);
    DirBlockMembers(us, f);
    if f in all {
      UnionKinds(us, f);
    }
  }

  /** A column of the layout is `url`, a remaining base column, in the directory block, or a query column. */
  lemma LayoutBlocks(us: seq<ParsedUrl>, cols: seq<Field>, f: Field)
    requires IsLayout(us, cols)
    ensures f in cols <==>
      || f == Url
      || (f in Union(us) && IsOtherField(f))
      || f in DirBlock(us)
      || (f in Union(us) && f.Query?)
  {
    var q := cols[|Prefix(us)|..];
    assert cols == Prefix(us) + q;
    assert f in q <==> f in QueryColumns(us) by {
      assert f in q <==> f in multiset(q);
    }
  }

  /** The directory block holds the directory columns of the frame, and `last_dir` when some path has a segment. */
  lemma DirBlockMembers(us: seq<ParsedUrl>, f: Field)
    ensures f in DirBlock(us) <==> (f in Union(us) && f.Dir?) || (f == LastDir && MaxDepth(us) > 0)
  {
    DirBlockShape(us);
    if f in Union(us) && f.Dir? {
      assert f in Filter(Union(us), IsDirField);
    }
  }

  /** `dir_k` is a column exactly when some path has at least k segments. */
  lemma DirColumns(us: seq<ParsedUrl>, cols: seq<Field>, k: nat)
    requires IsLayout(us, cols)
    ensures Dir(k) in cols <==> 1 <= k <= MaxDepth(us)
  {
    var pre := Prefix(us);
    var q := cols[|pre|..];
    assert cols == pre + q;
    QueryBlock(us, q);
    DirBlockShape(us);
    DirSpanMembers(MaxDepth(us), Dir(k));
    assert Dir(k) !in q;
    assert Dir(k) !in Filter(Union(us), IsOtherField);
    assert Dir(k) in pre <==> Dir(k) in DirBlock(us);
  }

  /** The five components of `_asdict()` are columns exactly when there is a URL at all. */
  lemma BaseColumns(us: seq<ParsedUrl>, cols: seq<Field>, f: Field)
    requires forall i :: 0 <= i < |us| ==> DistinctNames(us[i].params)
    requires IsLayout(us, cols)
    requires f == Scheme || f == Netloc || f == Path || f == QueryString || f == Fragment
    ensures f in cols <==> |us| > 0
  {
    LayoutMembers(us, cols, f);
    if |us| > 0 {
      ComponentSet(us[0], f);
    }
  }

  /** Every record holds the five components of `_asdict()`. */
  lemma ComponentSet(u: ParsedUrl, f: Field)
    requires f == Scheme || f == Netloc || f == Path || f == QueryString || f == Fragment
    ensures FieldValue(u, f).Some?
  {
  }
}
