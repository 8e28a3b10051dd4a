/**
  The pie-chart data of each depth (app.py:198-218): the level's `%_Clicks` without the
  rows whose rounded share is 0, each labelled by its directories joined with '/', and
  every slice whose share is below 0.005 relabelled `*others`.
*/
module Distribution {
  import opened Wrappers
  import opened Seqs
  import opened Text
  import opened Rounding
  import opened Levels

  /** One slice of a pie: its name and its value. */
  datatype Slice = Slice(name: string, share: Option<real>)

  const Others: string := "*others"

  /** The row survives `drop(... ['%_Clicks'] == 0)`: a NaN share is not equal to 0 and stays. */
  predicate Kept(l: LevelRow)
  {
    l.share != Some(0.0)
  }

  predicate NonZeroShare(s: Option<real>)
  {
    s != Some(0.0)
  }

  /** `%_Clicks < 0.005`, false for a NaN share. */
  predicate Small(s: Option<real>)
  {
    s.Some? && s.value < 0.005
  }

  /** `Dir_1`, `Dir_1 + '/' + Dir_2` or `Dir_1 + '/' + Dir_2 + '/' + Dir_3`. */
  function Label(key: seq<string>): (r: string)
    ensures |key| == 1 ==> r == key[0]
    ensures |key| == 2 ==> r == key[0] + "/" + key[1]
    ensures |key| == 3 ==> r == key[0] + "/" + key[1] + "/" + key[2]
  {
    assert |key| == 2 ==> Join(key[1..], "/") == key[1];
    assert |key| == 3 ==> Join(key[1..], "/") == key[1] + "/" + key[2] by {
      if |key| == 3 {
        assert key[1..][1..] == [key[2]];
        assert Join(key[1..][1..], "/") == key[2];
      }
    }
    Join(key, "/")
  }

  function Slices(ls: seq<LevelRow>): seq<Slice>
  {
    seq(|ls|, i requires 0 <= i < |ls| => Slice(Label(ls[i].key), ls[i].share))
  }

  /** The `.loc[... < 0.005, label] = '*others'` assignment, on values. */
  function Relabelled(ss: seq<Slice>): seq<Slice>
  {
    seq(|ss|, i requires 0 <= i < |ss| => if Small(ss[i].share) then Slice(Others, ss[i].share) else ss[i])
  }

  /** The relabelling, done in place as pandas does it. */
  method Relabel(a: array<Slice>)
    modifies a
    ensures a[..] == Relabelled(old(a[..]))
  {
    var i := 0;
    while i < a.Length
      invariant 0 <= i <= a.Length
      invariant forall k :: 0 <= k < i ==> a[k] == Relabelled(old(a[..]))[k]
      invariant forall k :: i <= k < a.Length ==> a[k] == old(a[k])
    {
      if Small(a[i].share) {
        a[i] := Slice(Others, a[i].share);
      }
      i := i + 1;
    }
  }

  /** The data handed to the pie chart of one depth. */
  function PlotData(ls: seq<LevelRow>): seq<Slice>
  {
    Relabelled(Slices(Filter(ls, Kept)))
  }

  /** Builds the pie data of a level: drop the zero shares, label, relabel the small slices. */
  method Plot(ls: seq<LevelRow>) returns (ps: seq<Slice>)
    ensures ps == PlotData(ls)
  {
    var ss := Slices(Filter(ls, Kept));
    var a := new Slice[|ss|](i requires 0 <= i < |ss| => ss[i]);
    assert a[..] == ss;
    Relabel(a);
    ps := a[..];
  }

  function Shares(ls: seq<LevelRow>): seq<Option<real>>
  {
    seq(|ls|, i requires 0 <= i < |ls| => ls[i].share)
  }

  function SliceShares(ss: seq<Slice>): seq<Option<real>>
  {
    seq(|ss|, i requires 0 <= i < |ss| => ss[i].share)
  }

  /** Keeping the non-zero rows and then reading their shares reads the non-zero shares. */
  lemma {:induction false} SharesFilter(ls: seq<LevelRow>)
    ensures Shares(Filter(ls, Kept)) == Filter(Shares(ls), NonZeroShare)
    decreases |ls|
  {
    if ls != [] {
      var n := |ls| - 1;
      var init, l := ls[..n], ls[n];
      SharesFilter(init);
      SplitLast(ls);
      FilterSnoc(init, l, Kept);
      SharesSnoc(init, l);
      FilterSnoc(Shares(init), l.share, NonZeroShare);
      if Kept(l) {
        SharesSnoc(Filter(init, Kept), l);
      } else {
        AppendNothing(Filter(init, Kept));
        AppendNothing(Filter(Shares(init), NonZeroShare));
      }
    }
  }

  lemma SharesSnoc(ls: seq<LevelRow>, l: LevelRow)
    ensures Shares(ls + [l]) == Shares(ls) + [l.share]
  {
  }

  /**
    The values of the pie are exactly the level's shares other than 0, in the level's order:
    relabelling changes names only.
  */
  lemma PlotShares(ls: seq<LevelRow>)
    ensures SliceShares(PlotData(ls)) == Filter(Shares(ls), NonZeroShare)
    ensures forall i :: 0 <= i < |PlotData(ls)| ==> PlotData(ls)[i].share != Some(0.0)
  {
    var kept := Filter(ls, Kept);
    SharesFilter(ls);
    assert SliceShares(PlotData(ls)) == Shares(kept);
    forall i | 0 <= i < |PlotData(ls)| ensures PlotData(ls)[i].share != Some(0.0) {
      assert PlotData(ls)[i].share == kept[i].share;
    }
  }

  /** No directory name holds the separator, so a label can be split back into its key. */
  predicate PlainKey(key: seq<string>)
  {
    |key| >= 1 && forall j :: 0 <= j < |key| ==> '/' !in key[j]
  }

  /**
    Slice `i` comes from row `k` of the level: it carries that row's share, it is named
    `*others` exactly when the share is below 0.005, and otherwise its name splits at '/'
    back into the row's directories.
  */
  lemma PlotSource(ls: seq<LevelRow>, i: nat) returns (k: nat)
    requires forall k :: 0 <= k < |ls| ==> PlainKey(ls[k].key)
    requires i < |PlotData(ls)|
    ensures k < |ls| && Kept(ls[k]) && ls[k] == Filter(ls, Kept)[i]
    ensures PlotData(ls)[i].share == ls[k].share
    ensures Small(ls[k].share) ==> PlotData(ls)[i].name == Others
    ensures !Small(ls[k].share) ==> Split(PlotData(ls)[i].name, '/') == ls[k].key
  {
    var kept := Filter(ls, Kept);
    assert kept[i] in ls;
    k :| 0 <= k < |ls| && ls[k] == kept[i];
    SplitJoin(ls[k].key, '/');
  }

  /** Rows with different keys give slices with different names, `*others` aside. */
  lemma PlotLabelsDistinct(ls: seq<LevelRow>)
    requires forall k :: 0 <= k < |ls| ==> PlainKey(ls[k].key)
    requires forall i, j :: 0 <= i < j < |ls| ==> ls[i].key != ls[j].key
    ensures forall i, j :: 0 <= i < j < |PlotData(ls)| && !Small(PlotData(ls)[i].share) && !Small(PlotData(ls)[j].share) ==>
      PlotData(ls)[i].name != PlotData(ls)[j].name
  {
    var p, kept := PlotData(ls), Filter(ls, Kept);
    assert Distinct(ls) by {
      forall i, j | 0 <= i < j < |ls| ensures ls[i] != ls[j] {
        assert ls[i].key != ls[j].key;
      }
    }
    FilterDistinct(ls, Kept);
    forall i, j | 0 <= i < j < |p| && !Small(p[i].share) && !Small(p[j].share) ensures p[i].name != p[j].name {
      var a := PlotSource(ls, i);
      var b := PlotSource(ls, j);
      assert a != b;
    }
  }

  /**
    Because the shares are rounded to three decimals first, a group disappears from the pie
    exactly when its unrounded share is at most 0.0005, and is named `*others` exactly when
    it is at most 0.0045.
  */
  lemma SliceThresholds(g: Group, total: nat)
    requires total > 0
    ensures var x := g.clicks as real / total as real;
      && (Kept(Derive(g, total)) <==> x > 0.0005)
      && (Small(Derive(g, total).share) <==> x <= 0.0045)
  {
    var x := g.clicks as real / total as real;
    assert x >= 0.0;
    RoundsToZero(x);
    RoundsBelowFiveThousandths(x);
  }
}
