/**
  The directory levels (app.py:131-195): at depth d the joined rows are grouped by
  `(dir_1 .. dir_d)`, rows with a null among those dropped as `groupby` does; each group
  sums `Clicks`, `Impressions` and `nb`; the groups are sorted by `Clicks`, largest first;
  then `Clicks_per_URL`, the CTR and `%_Clicks` are derived, and an average CTR per depth.
*/
module Levels {
  import opened Wrappers
  import opened Seqs
  import opened Rounding
  import opened MetricsJoin

  /** `dir_(i+1)` of a joined row; every directory column of an unmatched row is null. */
  function DirCell(r: JoinedRow, i: nat): Option<string>
  {
    if r.left.Some? && i < |r.left.value.dirs| then r.left.value.dirs[i] else None
  }

  /** The group key of `r` at depth `d`, or None when one of `dir_1 .. dir_d` is null. */
  function KeyOf(r: JoinedRow, d: nat): Option<seq<string>>
  {
    if d == 0 then Some([])
    else
      var k, c := KeyOf(r, d - 1), DirCell(r, d - 1);
      if k.Some? && c.Some? then Some(k.value + [c.value]) else None
  }

  /** A row has a key exactly when its first `d` directories are filled, and the key lists them. */
  lemma {:induction false} KeyOfSpec(r: JoinedRow, d: nat)
    ensures KeyOf(r, d).Some? <==> forall i :: 0 <= i < d ==> DirCell(r, i).Some?
    ensures KeyOf(r, d).Some? ==> |KeyOf(r, d).value| == d && forall i :: 0 <= i < d ==> KeyOf(r, d).value[i] == DirCell(r, i).value
  {
    if d > 0 {
      KeyOfSpec(r, d - 1);
    }
  }

  /** A row grouped at some depth is grouped at every smaller depth. */
  lemma KeyOfShallower(r: JoinedRow, d: nat, e: nat)
    requires e <= d && KeyOf(r, d).Some?
    ensures KeyOf(r, e).Some?
  {
    KeyOfSpec(r, d);
    KeyOfSpec(r, e);
  }

  /** The measures a pivot sums. */
  datatype Measure = Clicks | Impressions | Nb

  function MeasureOf(r: JoinedRow, m: Measure): nat
  {
    match m
    case Clicks => r.clicks
    case Impressions => r.impressions
    case Nb => r.nb
  }

  /** The distinct keys at depth `d`, in order of first appearance. */
  function KeysOf(rows: seq<JoinedRow>, d: nat): seq<seq<string>>
  {
    if rows == [] then []
    else
      var ks, k := KeysOf(rows[..|rows| - 1], d), KeyOf(rows[|rows| - 1], d);
      if k.Some? && k.value !in ks then ks + [k.value] else ks
  }

  /** Some row has key `k` at depth `d`. */
  ghost predicate HasKey(rows: seq<JoinedRow>, d: nat, k: seq<string>)
  {
    exists i :: 0 <= i < |rows| && KeyOf(rows[i], d) == Some(k)
  }

  /** There is one key per distinct non-null `(dir_1 .. dir_d)` of the rows. */
  lemma {:induction false} KeysOfSpec(rows: seq<JoinedRow>, d: nat)
    ensures Distinct(KeysOf(rows, d))
    ensures forall k :: k in KeysOf(rows, d) <==> HasKey(rows, d, k)
    decreases |rows|
  {
    if rows != [] {
      var init := rows[..|rows| - 1];
      KeysOfSpec(init, d);
      forall k ensures HasKey(rows, d, k) <==> HasKey(init, d, k) || KeyOf(rows[|rows| - 1], d) == Some(k) {
        if HasKey(init, d, k) {
          var i :| 0 <= i < |init| && KeyOf(init[i], d) == Some(k);
          assert rows[i] == init[i];
        }
        if HasKey(rows, d, k) {
          var i :| 0 <= i < |rows| && KeyOf(rows[i], d) == Some(k);
          if i < |init| {
            assert init[i] == rows[i];
          }
        }
      }
    }
  }

  /** The sum of measure `m` over the rows with key `k`. */
  function Total(rows: seq<JoinedRow>, d: nat, k: seq<string>, m: Measure): nat
  {
    if rows == [] then 0
    else
      var r := rows[|rows| - 1];
      Total(rows[..|rows| - 1], d, k, m) + if KeyOf(r, d) == Some(k) then MeasureOf(r, m) else 0
  }

  /** The sum of measure `m` over the rows that have a key at depth `d`, the rows the pivot keeps. */
  function KeyedTotal(rows: seq<JoinedRow>, d: nat, m: Measure): nat
  {
    if rows == [] then 0
    else
      var r := rows[|rows| - 1];
      KeyedTotal(rows[..|rows| - 1], d, m) + if KeyOf(r, d).Some? then MeasureOf(r, m) else 0
  }

  /** The number of rows the pivot at depth `d` keeps. */
  function KeyedCount(rows: seq<JoinedRow>, d: nat): nat
  {
    if rows == [] then 0
    else KeyedCount(rows[..|rows| - 1], d) + if KeyOf(rows[|rows| - 1], d).Some? then 1 else 0
  }

  /** One row of the pivot table: the key and the three sums (`nb` summed is `Nb_URL`). */
  datatype Group = Group(key: seq<string>, clicks: nat, impressions: nat, nbUrl: nat)

  function GroupOf(rows: seq<JoinedRow>, d: nat, k: seq<string>): Group
  {
    Group(k, Total(rows, d, k, Clicks), Total(rows, d, k, Impressions), Total(rows, d, k, Nb))
  }

  function GroupMeasure(g: Group, m: Measure): nat
  {
    match m
    case Clicks => g.clicks
    case Impressions => g.impressions
    case Nb => g.nbUrl
  }

  /** `pivot_table(index=[dir_1 .. dir_d], aggfunc=sum)`, one group per key. */
  function Groups(rows: seq<JoinedRow>, d: nat): seq<Group>
  {
    var ks := KeysOf(rows, d);
    seq(|ks|, i requires 0 <= i < |ks| => GroupOf(rows, d, ks[i]))
  }

  function ClicksKey(g: Group): real
  {
    g.clicks as real
  }

  /** The pivot after `sort_values(by='Clicks', ascending=False)`. */
  function Pivot(rows: seq<JoinedRow>, d: nat): seq<Group>
  {
    SortDescending(Groups(rows, d), ClicksKey)
  }

  /** The sum of a pivot column. */
  function SumGroups(gs: seq<Group>, m: Measure): nat
  {
    if gs == [] then 0 else SumGroups(gs[..|gs| - 1], m) + GroupMeasure(gs[|gs| - 1], m)
  }

  /**
    The pivot at depth `d` has exactly one group per distinct non-null `(dir_1 .. dir_d)`,
    holding that key's sums, and its groups come in non-increasing order of `Clicks`.
  */
  lemma PivotGroups(rows: seq<JoinedRow>, d: nat)
    ensures Descending(Pivot(rows, d), ClicksKey)
    ensures forall g :: g in Pivot(rows, d) <==> HasKey(rows, d, g.key) && g == GroupOf(rows, d, g.key)
    ensures forall i, j :: 0 <= i < j < |Pivot(rows, d)| ==> Pivot(rows, d)[i].key != Pivot(rows, d)[j].key
  {
    var gs, p := Groups(rows, d), Pivot(rows, d);
    SortDescendingOrdered(gs, ClicksKey);
    KeysOfSpec(rows, d);
    PermutationMembers(gs, p);
    forall g ensures g in gs <==> HasKey(rows, d, g.key) && g == GroupOf(rows, d, g.key) {
      GroupsMembers(rows, d, g);
    }
    GroupsDistinct(rows, d);
    PermutationDistinct(gs, p);
    forall i, j | 0 <= i < j < |p| ensures p[i].key != p[j].key {
      assert p[i] in gs && p[j] in gs;
    }
  }

  /** The groups are the groups of the keys. */
  lemma GroupsMembers(rows: seq<JoinedRow>, d: nat, g: Group)
    ensures g in Groups(rows, d) <==> g.key in KeysOf(rows, d) && g == GroupOf(rows, d, g.key)
  {
    var gs, ks := Groups(rows, d), KeysOf(rows, d);
    if g.key in ks && g == GroupOf(rows, d, g.key) {
      var i :| 0 <= i < |ks| && ks[i] == g.key;
      assert gs[i] == g;
    }
  }

  /** Distinct keys give distinct groups. */
  lemma GroupsDistinct(rows: seq<JoinedRow>, d: nat)
    ensures Distinct(Groups(rows, d))
  {
    var gs, ks := Groups(rows, d), KeysOf(rows, d);
    KeysOfSpec(rows, d);
    forall i, j | 0 <= i < j < |gs| ensures gs[i] != gs[j] {
      assert gs[i].key == ks[i] && gs[j].key == ks[j];
    }
  }

  /** The sum over the groups of the rows' keys, key by key. */
  function SumKeys(rows: seq<JoinedRow>, d: nat, ks: seq<seq<string>>, m: Measure): nat
  {
    if ks == [] then 0 else SumKeys(rows, d, ks[..|ks| - 1], m) + Total(rows, d, ks[|ks| - 1], m)
  }

  /** How much of measure `v` the keys `ks` pick up from one row with key `k`. */
  function Hits(ks: seq<seq<string>>, k: Option<seq<string>>, v: nat): nat
  {
    if ks == [] then 0 else Hits(ks[..|ks| - 1], k, v) + if k == Some(ks[|ks| - 1]) then v else 0
  }

  /** Distinct keys count a row once when its key is among them, and not at all otherwise. */
  lemma {:induction false} HitsOnce(ks: seq<seq<string>>, k: Option<seq<string>>, v: nat)
    requires Distinct(ks)
    ensures Hits(ks, k, v) == if k.Some? && k.value in ks then v else 0
    decreases |ks|
  {
    if ks != [] {
      var init := ks[..|ks| - 1];
      assert Distinct(init) by {
        forall i, j | 0 <= i < j < |init| ensures init[i] != init[j] {
          assert init[i] == ks[i] && init[j] == ks[j];
        }
      }
      HitsOnce(init, k, v);
      SplitLast(ks);
      assert ks[|ks| - 1] !in init;
    }
  }

  /** One more row adds its measure to the key it has. */
  lemma {:induction false} SumKeysSnoc(rows: seq<JoinedRow>, d: nat, ks: seq<seq<string>>, m: Measure)
    requires rows != []
    ensures var r := rows[|rows| - 1];
      SumKeys(rows, d, ks, m) == SumKeys(rows[..|rows| - 1], d, ks, m) + Hits(ks, KeyOf(r, d), MeasureOf(r, m))
    decreases |ks|
  {
    if ks != [] {
      SumKeysSnoc(rows, d, ks[..|ks| - 1], m);
    }
  }

  /** Summing the groups of distinct keys that cover every row's key gives the total over the grouped rows. */
  lemma {:induction false} SumKeysPartition(rows: seq<JoinedRow>, d: nat, ks: seq<seq<string>>, m: Measure)
    requires Distinct(ks)
    requires forall i :: 0 <= i < |rows| && KeyOf(rows[i], d).Some? ==> KeyOf(rows[i], d).value in ks
    ensures SumKeys(rows, d, ks, m) == KeyedTotal(rows, d, m)
    decreases |rows|
  {
    if rows == [] {
      SumKeysEmpty(d, ks, m);
    } else {
      var init, r := rows[..|rows| - 1], rows[|rows| - 1];
      assert forall i :: 0 <= i < |init| ==> init[i] == rows[i];
      SumKeysPartition(init, d, ks, m);
      SumKeysSnoc(rows, d, ks, m);
      HitsOnce(ks, KeyOf(r, d), MeasureOf(r, m));
    }
  }

  lemma {:induction false} SumKeysEmpty(d: nat, ks: seq<seq<string>>, m: Measure)
    ensures SumKeys([], d, ks, m) == 0
    decreases |ks|
  {
    if ks != [] {
      SumKeysEmpty(d, ks[..|ks| - 1], m);
    }
  }

  /** The groups' column sum is the sum over their keys. */
  lemma {:induction false} SumGroupsOfKeys(rows: seq<JoinedRow>, d: nat, ks: seq<seq<string>>, m: Measure)
    ensures SumGroups(seq(|ks|, i requires 0 <= i < |ks| => GroupOf(rows, d, ks[i])), m) == SumKeys(rows, d, ks, m)
    decreases |ks|
  {
    if ks != [] {
      var n := |ks| - 1;
      var gs := seq(|ks|, i requires 0 <= i < |ks| => GroupOf(rows, d, ks[i]));
      var init := ks[..n];
      SumGroupsOfKeys(rows, d, init, m);
      assert gs[..n] == seq(|init|, i requires 0 <= i < |init| => GroupOf(rows, d, init[i]));
      assert GroupMeasure(gs[n], m) == Total(rows, d, ks[n], m) by {
        match m
        case Clicks =>
        case Impressions =>
        case Nb =>
      }
    }
  }

  /** Column sums over concatenated groups add up. */
  lemma {:induction false} SumGroupsConcat(a: seq<Group>, b: seq<Group>, m: Measure)
    ensures SumGroups(a + b, m) == SumGroups(a, m) + SumGroups(b, m)
    decreases |b|
  {
    if b == [] {
      assert a + b == a;
    } else {
      var n := |b| - 1;
      assert (a + b)[..|a + b| - 1] == a + b[..n];
      SumGroupsConcat(a, b[..n], m);
    }
  }

  /** Reordering the groups leaves a column sum unchanged. */
  lemma {:induction false} SumGroupsPermutation(a: seq<Group>, b: seq<Group>, m: Measure)
    requires multiset(a) == multiset(b)
    ensures SumGroups(a, m) == SumGroups(b, m)
    decreases |a|
  {
    if a == [] {
      assert |b| == |multiset(b)| == 0;
    } else {
      var n := |a| - 1;
      assert a[n] in multiset(b);
      var j :| 0 <= j < |b| && b[j] == a[n];
      RemoveMatching(a, b, j);
      SumGroupsPermutation(a[..n], b[..j] + b[j + 1..], m);
      SumGroupsRemove(b, j, m);
    }
  }

  /** Taking group `j` out of a sequence takes its measure out of the column sum. */
  lemma SumGroupsRemove(b: seq<Group>, j: nat, m: Measure)
    requires j < |b|
    ensures SumGroups(b, m) == SumGroups(b[..j] + b[j + 1..], m) + GroupMeasure(b[j], m)
  {
    var x := b[j];
    SplitAt(b, j);
    SumGroupsConcat(b[..j] + [x], b[j + 1..], m);
    SumGroupsConcat(b[..j], [x], m);
    SumGroupsConcat(b[..j], b[j + 1..], m);
    assert SumGroups([x], m) == GroupMeasure(x, m) by {
      assert [x][..0] == [];
    }
  }

  /** A column sum of the pivot at depth `d` is the sum over all rows with a key at depth `d`. */
  lemma PivotTotals(rows: seq<JoinedRow>, d: nat, m: Measure)
    ensures SumGroups(Pivot(rows, d), m) == KeyedTotal(rows, d, m)
  {
    var ks := KeysOf(rows, d);
    KeysOfSpec(rows, d);
    SumGroupsPermutation(Groups(rows, d), Pivot(rows, d), m);
    SumGroupsOfKeys(rows, d, ks, m);
    forall i | 0 <= i < |rows| && KeyOf(rows[i], d).Some? ensures KeyOf(rows[i], d).value in ks {
      assert HasKey(rows, d, KeyOf(rows[i], d).value);
    }
    SumKeysPartition(rows, d, ks, m);
  }

  /** With `nb = 1` on every row, `Nb_URL` summed over the pivot counts the rows it keeps. */
  lemma {:induction false} NbCountsRows(rows: seq<JoinedRow>, d: nat)
    requires forall i :: 0 <= i < |rows| ==> rows[i].nb == 1
    ensures KeyedTotal(rows, d, Nb) == KeyedCount(rows, d)
    decreases |rows|
  {
    if rows != [] {
      NbCountsRows(rows[..|rows| - 1], d);
    }
  }

  /** Deeper pivots keep fewer rows, so their totals never exceed the shallower ones. */
  lemma {:induction false} KeyedTotalDeeper(rows: seq<JoinedRow>, d: nat, e: nat, m: Measure)
    requires e <= d
    ensures KeyedTotal(rows, d, m) <= KeyedTotal(rows, e, m)
    decreases |rows|
  {
    if rows != [] {
      KeyedTotalDeeper(rows[..|rows| - 1], d, e, m);
      if KeyOf(rows[|rows| - 1], d).Some? {
        KeyOfShallower(rows[|rows| - 1], d, e);
      }
    }
  }

  /** `a / b`, undefined (NaN or infinite in pandas) when `b` is 0. */
  function Ratio(a: nat, b: nat): (r: Option<real>)
    ensures r.Some? <==> b != 0
    ensures r.Some? ==> r.value * b as real == a as real
  {
    if b == 0 then None else Some(a as real / b as real)
  }

  function RoundOption(x: Option<real>, n: nat): Option<real>
  {
    if x.Some? then Some(Round(x.value, n)) else None
  }

  /** One row of `pivot_dir_d` after the derived columns. */
  datatype LevelRow = LevelRow(
    key: seq<string>, clicks: nat, share: Option<real>, impressions: nat,
    ctr: Option<real>, nbUrl: nat, clicksPerUrl: Option<real>)

  /** `Clicks_per_URL` to 2 decimals, CTR and `%_Clicks` (against `total`) to 3. */
  function Derive(g: Group, total: nat): LevelRow
  {
    LevelRow(
      g.key, g.clicks, RoundOption(Ratio(g.clicks, total), 3), g.impressions,
      RoundOption(Ratio(g.clicks, g.impressions), 3), g.nbUrl, RoundOption(Ratio(g.clicks, g.nbUrl), 2))
  }

  function Derived(gs: seq<Group>, total: nat): seq<LevelRow>
  {
    seq(|gs|, i requires 0 <= i < |gs| => Derive(gs[i], total))
  }

  /** `pivot_dir_1['Clicks'].sum()`, the denominator of `%_Clicks` at every depth. */
  function LevelOneTotal(rows: seq<JoinedRow>): nat
  {
    SumGroups(Pivot(rows, 1), Clicks)
  }

  /** The table `pivot_dir_d`. */
  function Level(rows: seq<JoinedRow>, d: nat): seq<LevelRow>
  {
    Derived(Pivot(rows, d), LevelOneTotal(rows))
  }

  /** A column sum of a level table. */
  function SumLevel(ls: seq<LevelRow>, m: Measure): nat
  {
    if ls == [] then 0
    else
      var l := ls[|ls| - 1];
      SumLevel(ls[..|ls| - 1], m) + match m
        case Clicks => l.clicks
        case Impressions => l.impressions
        case Nb => l.nbUrl
  }

  /** `average_ctr_dir_d`: total clicks over total impressions of the level. */
  function AverageCtr(ls: seq<LevelRow>): Option<real>
  {
    Ratio(SumLevel(ls, Clicks), SumLevel(ls, Impressions))
  }

  lemma {:induction false} SumLevelDerived(gs: seq<Group>, total: nat, m: Measure)
    ensures SumLevel(Derived(gs, total), m) == SumGroups(gs, m)
    decreases |gs|
  {
    if gs != [] {
      var n := |gs| - 1;
      assert Derived(gs, total)[..n] == Derived(gs[..n], total);
      SumLevelDerived(gs[..n], total, m);
    }
  }

  /** The denominator of `%_Clicks` is the total clicks of the rows with a `dir_1`, at every depth. */
  lemma LevelOneTotalIsRows(rows: seq<JoinedRow>)
    ensures LevelOneTotal(rows) == KeyedTotal(rows, 1, Clicks)
  {
    PivotTotals(rows, 1, Clicks);
  }

  /**
    The average CTR of depth `d` is clicks over impressions of all rows the depth keeps,
    undefined when they have no impressions.
  */
  lemma AverageCtrOfRows(rows: seq<JoinedRow>, d: nat)
    ensures AverageCtr(Level(rows, d)) == Ratio(KeyedTotal(rows, d, Clicks), KeyedTotal(rows, d, Impressions))
  {
    SumLevelDerived(Pivot(rows, d), LevelOneTotal(rows), Clicks);
    SumLevelDerived(Pivot(rows, d), LevelOneTotal(rows), Impressions);
    PivotTotals(rows, d, Clicks);
    PivotTotals(rows, d, Impressions);
  }

  /** The sum of the shares `clicks / total` before rounding. */
  function ShareSum(gs: seq<Group>, total: nat): real
    requires total > 0
  {
    if gs == [] then 0.0 else ShareSum(gs[..|gs| - 1], total) + gs[|gs| - 1].clicks as real / total as real
  }

  lemma {:induction false} ShareSumIsRatio(gs: seq<Group>, total: nat)
    requires total > 0
    ensures ShareSum(gs, total) == SumGroups(gs, Clicks) as real / total as real
    decreases |gs|
  {
    if gs != [] {
      ShareSumIsRatio(gs[..|gs| - 1], total);
      AddFractions(SumGroups(gs[..|gs| - 1], Clicks) as real, gs[|gs| - 1].clicks as real, total as real);
    }
  }

  lemma AddFractions(a: real, b: real, t: real)
    requires t > 0.0
    ensures a / t + b / t == (a + b) / t
  {
  }

  lemma FractionOne(t: real)
    requires t > 0.0
    ensures t / t == 1.0
  {
  }

  lemma FractionAtMostOne(a: real, t: real)
    requires 0.0 <= a <= t && t > 0.0
    ensures a / t <= 1.0
  {
  }

  /**
    Because every depth divides by the depth-1 total, the unrounded shares sum to 1 at
    depth 1 and to at most 1 at depths 2 and 3 (rows without a deeper directory are left out).
  */
  lemma SharesSum(rows: seq<JoinedRow>, d: nat)
    requires d >= 1 && LevelOneTotal(rows) > 0
    ensures ShareSum(Pivot(rows, d), LevelOneTotal(rows)) <= 1.0
    ensures d == 1 ==> ShareSum(Pivot(rows, d), LevelOneTotal(rows)) == 1.0
  {
    var t := LevelOneTotal(rows);
    var c := KeyedTotal(rows, d, Clicks);
    ShareSumIsRatio(Pivot(rows, d), t);
    PivotTotals(rows, d, Clicks);
    LevelOneTotalIsRows(rows);
    KeyedTotalDeeper(rows, d, 1, Clicks);
    assert ShareSum(Pivot(rows, d), t) == c as real / t as real;
    assert c <= t;
    FractionAtMostOne(c as real, t as real);
    if d == 1 {
      assert c == t;
      FractionOne(t as real);
    }
  }

  /**
    The derived columns of one group with at least one URL: each is its ratio rounded as
    the source rounds it, undefined exactly when its divisor is 0, and within half a unit of
    its last decimal of the exact ratio.
  */
  lemma DeriveRow(g: Group, total: nat)
    requires g.nbUrl >= 1
    ensures var l := Derive(g, total);
      && l.key == g.key && l.clicks == g.clicks && l.impressions == g.impressions && l.nbUrl == g.nbUrl
      && l.share == RoundOption(Ratio(g.clicks, total), 3)
      && (l.share.None? <==> total == 0)
      && (total > 0 ==> -0.0005 <= l.share.value - g.clicks as real / total as real <= 0.0005)
      && l.ctr == RoundOption(Ratio(g.clicks, g.impressions), 3)
      && (l.ctr.None? <==> g.impressions == 0)
      && (g.impressions > 0 ==> -0.0005 <= l.ctr.value - g.clicks as real / g.impressions as real <= 0.0005)
      && l.clicksPerUrl == RoundOption(Ratio(g.clicks, g.nbUrl), 2)
      && l.clicksPerUrl.Some? && -0.005 <= l.clicksPerUrl.value - g.clicks as real / g.nbUrl as real <= 0.005
  {
    assert Pow10(2) == 100 && Pow10(3) == 1000;
    RoundError(g.clicks as real / g.nbUrl as real, 2);
    if total > 0 {
      RoundError(g.clicks as real / total as real, 3);
    }
    if g.impressions > 0 {
      RoundError(g.clicks as real / g.impressions as real, 3);
    }
  }

  /** The level keeps the pivot's rows and order: non-increasing `Clicks`. */
  lemma LevelOrdered(rows: seq<JoinedRow>, d: nat)
    ensures |Level(rows, d)| == |Pivot(rows, d)|
    ensures forall i, j :: 0 <= i < j < |Level(rows, d)| ==> Level(rows, d)[i].clicks >= Level(rows, d)[j].clicks
  {
    PivotGroups(rows, d);
  }

  /**
    Every level row holds its group's sums; `%_Clicks` is its clicks over the depth-1 total
    of the rows, undefined when that is 0, and the CTR its clicks over its impressions,
    undefined without impressions, both rounded to 3 decimals (so within 0.0005 of the exact
    ratio); `Clicks_per_URL` is clicks over `Nb_URL` rounded to 2 decimals, always defined
    when `nb = 1`, since every group holds a row.
  */
  lemma LevelRows(rows: seq<JoinedRow>, d: nat)
    requires forall i :: 0 <= i < |rows| ==> rows[i].nb == 1
    ensures |Level(rows, d)| == |Pivot(rows, d)|
    ensures forall i :: 0 <= i < |Level(rows, d)| ==>
      var l, g := Level(rows, d)[i], Pivot(rows, d)[i];
      && l.key == g.key && l.clicks == g.clicks && l.impressions == g.impressions && l.nbUrl == g.nbUrl
      && l.share == RoundOption(Ratio(g.clicks, KeyedTotal(rows, 1, Clicks)), 3)
      && (l.share.None? <==> KeyedTotal(rows, 1, Clicks) == 0)
      && l.ctr == RoundOption(Ratio(g.clicks, g.impressions), 3)
      && (l.ctr.None? <==> g.impressions == 0)
      && (g.impressions > 0 ==> -0.0005 <= l.ctr.value - g.clicks as real / g.impressions as real <= 0.0005)
      && l.clicksPerUrl == RoundOption(Ratio(g.clicks, g.nbUrl), 2)
      && l.clicksPerUrl.Some? && -0.005 <= l.clicksPerUrl.value - g.clicks as real / g.nbUrl as real <= 0.005
  {
    var p := Pivot(rows, d);
    LevelOneTotalIsRows(rows);
    forall i | 0 <= i < |p| ensures p[i].nbUrl >= 1 {
      PivotMember(rows, d, p[i]);
      GroupNonEmpty(rows, d, p[i].key);
    }
    forall i | 0 <= i < |p| ensures Level(rows, d)[i] == Derive(p[i], LevelOneTotal(rows)) {
    }
    forall i | 0 <= i < |p| {
      DeriveRow(p[i], LevelOneTotal(rows));
    }
  }

  /** A group of the pivot belongs to a key some row has. */
  lemma PivotMember(rows: seq<JoinedRow>, d: nat, g: Group)
    requires g in Pivot(rows, d)
    ensures HasKey(rows, d, g.key) && g == GroupOf(rows, d, g.key)
  {
    PivotGroups(rows, d);
  }

  /** A key some row has collects at least that row's `nb = 1`. */
  lemma {:induction false} GroupNonEmpty(rows: seq<JoinedRow>, d: nat, k: seq<string>)
    requires forall i :: 0 <= i < |rows| ==> rows[i].nb == 1
    requires HasKey(rows, d, k)
    ensures Total(rows, d, k, Nb) >= 1
    decreases |rows|
  {
    var n := |rows| - 1;
    var init := rows[..n];
    if KeyOf(rows[n], d) != Some(k) {
      var i :| 0 <= i < |rows| && KeyOf(rows[i], d) == Some(k);
      assert init[i] == rows[i];
      assert forall j :: 0 <= j < |init| ==> init[j] == rows[j];
      GroupNonEmpty(init, d, k);
    }
  }
}
