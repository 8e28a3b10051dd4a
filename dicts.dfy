/**
  A Python dict as the analyzer uses it: keys in insertion order and their values.
  `d[k] = v` keeps an existing key in place and appends a new one; `d.update(entries)`
  does that for each entry in turn, so the last entry for a key wins.
*/
module Dicts {
  import opened Wrappers
  import opened Seqs

  datatype Dict<K(==,!new), V> = Dict(order: seq<K>, values: map<K, V>)
  {
    /** The keys in `order` are exactly the keys with a value. */
    ghost predicate Valid()
    {
      forall k :: k in values <==> k in order
    }

    function Get(k: K): Option<V>
    {
      if k in values then Some(values[k]) else None
    }

    /** `d[k] = v`. */
    function Put(k: K, v: V): (r: Dict<K, V>)
      ensures r.Get(k) == Some(v)
      ensures forall j :: j != k ==> r.Get(j) == Get(j)
      ensures Valid() ==> r.Valid() && r.order == if k in order then order else order + [k]
    {
      if k in values then Dict(order, values[k := v]) else Dict(order + [k], values[k := v])
    }
  }

  /** The value the last entry for `k` carries, if any entry has key `k`. */
  function Lookup<K(==,!new), V>(entries: seq<(K, V)>, k: K): Option<V>
  {
    if entries == [] then None
    else if entries[|entries| - 1].0 == k then Some(entries[|entries| - 1].1)
    else Lookup(entries[..|entries| - 1], k)
  }

  /** The keys of `entries`, in order. */
  function EntryKeys<K, V>(entries: seq<(K, V)>): (r: seq<K>)
    ensures |r| == |entries| && forall i :: 0 <= i < |r| ==> r[i] == entries[i].0
  {
    seq(|entries|, i requires 0 <= i < |entries| => entries[i].0)
  }

  /** `acc` followed by the elements of `ks` it does not hold yet, in order of first appearance. */
  function AddNew<K(==,!new)>(acc: seq<K>, ks: seq<K>): seq<K>
  {
    if ks == [] then acc
    else
      var a := AddNew(acc, ks[..|ks| - 1]);
      if ks[|ks| - 1] in a then a else a + [ks[|ks| - 1]]
  }

  /** Merging keeps every element of both sides and adds no other. */
  lemma {:induction false} AddNewMembers<K(!new)>(acc: seq<K>, ks: seq<K>)
    ensures forall k :: k in AddNew(acc, ks) <==> k in acc || k in ks
    decreases |ks|
  {
    if ks != [] {
      AddNewMembers(acc, ks[..|ks| - 1]);
      assert forall k :: k in ks <==> k in ks[..|ks| - 1] || k == ks[|ks| - 1];
    }
  }

  /** Merging into a distinct sequence gives a distinct sequence. */
  lemma {:induction false} AddNewDistinct<K(!new)>(acc: seq<K>, ks: seq<K>)
    requires Distinct(acc)
    ensures Distinct(AddNew(acc, ks))
    decreases |ks|
  {
    if ks != [] {
      AddNewDistinct(acc, ks[..|ks| - 1]);
    }
  }

  /** Merging distinct elements none of which is in `acc` just appends them. */
  lemma {:induction false} AddNewFresh<K(!new)>(acc: seq<K>, ks: seq<K>)
    requires Distinct(ks)
    requires forall k :: k in ks ==> k !in acc
    ensures AddNew(acc, ks) == acc + ks
    decreases |ks|
  {
    if ks != [] {
      var init, last := ks[..|ks| - 1], ks[|ks| - 1];
      assert Distinct(init) by {
        forall i, j | 0 <= i < j < |init| ensures init[i] != init[j] {
          assert init[i] == ks[i] && init[j] == ks[j];
        }
      }
      AddNewFresh(acc, init);
      assert last !in init;
      assert acc + init + [last] == acc + ks;
    }
  }

  /** An entry whose key no later entry repeats is the one `Lookup` finds. */
  lemma {:induction false} LookupAt<K(!new), V>(entries: seq<(K, V)>, j: nat)
    requires j < |entries|
    requires forall i :: j < i < |entries| ==> entries[i].0 != entries[j].0
    ensures Lookup(entries, entries[j].0) == Some(entries[j].1)
    decreases |entries|
  {
    if j < |entries| - 1 {
      var init := entries[..|entries| - 1];
      assert init[j] == entries[j];
      LookupAt(init, j);
    }
  }

  /** A key no entry has is not found. */
  lemma {:induction false} LookupAbsent<K(!new), V>(entries: seq<(K, V)>, k: K)
    requires forall i :: 0 <= i < |entries| ==> entries[i].0 != k
    ensures Lookup(entries, k).None?
    decreases |entries|
  {
    if entries != [] {
      LookupAbsent(entries[..|entries| - 1], k);
    }
  }

  /**
    `d.update(entries)`, one assignment per entry. The dict afterwards holds, for every
    key, the value of the last entry with that key, else its old value; new keys are
    appended in order of first appearance.
  */
  method Update<K(==,!new), V>(d: Dict<K, V>, entries: seq<(K, V)>) returns (r: Dict<K, V>)
    requires d.Valid()
    ensures r.Valid()
    ensures r.order == AddNew(d.order, EntryKeys(entries))
    ensures forall k :: r.Get(k) == if Lookup(entries, k).Some? then Lookup(entries, k) else d.Get(k)
  {
    r := d;
    var i := 0;
    while i < |entries|
      invariant 0 <= i <= |entries|
      invariant r.Valid()
      invariant r.order == AddNew(d.order, EntryKeys(entries[..i]))
      invariant forall k :: r.Get(k) == if Lookup(entries[..i], k).Some? then Lookup(entries[..i], k) else d.Get(k)
    {
      ghost var before := r;
      var (k, v) := entries[i];
      r := r.Put(k, v);
      assert entries[..i + 1][..i] == entries[..i];
      assert EntryKeys(entries[..i + 1]) == EntryKeys(entries[..i]) + [k];
      forall j ensures r.Get(j) == if Lookup(entries[..i + 1], j).Some? then Lookup(entries[..i + 1], j) else d.Get(j) {
        if j != k {
          assert r.Get(j) == before.Get(j);
        }
      }
      i := i + 1;
    }
    assert entries[..i] == entries;
  }

  /** Filtering a merge is merging the filtered sides: the filter keeps first-appearance order. */
  lemma {:induction false} FilterAddNew<K(!new)>(acc: seq<K>, ks: seq<K>, p: K -> bool)
    ensures Filter(AddNew(acc, ks), p) == AddNew(Filter(acc, p), Filter(ks, p))
    decreases |ks|
  {
    if ks != [] {
      var init, x := ks[..|ks| - 1], ks[|ks| - 1];
      assert ks == init + [x];
      FilterAddNew(acc, init, p);
      var a := AddNew(acc, init);
      var fi := Filter(init, p);
      FilterSnoc(init, x, p);
      if x !in a {
        FilterSnoc(a, x, p);
      }
      if p(x) {
        assert (fi + [x])[..|fi + [x]| - 1] == fi;
        assert x in Filter(a, p) <==> x in a;
      }
    }
  }

  /** The keys of a list of dicts merged in order of first appearance, as `pd.DataFrame(list_of_dicts)` orders its columns. */
  function Merged<K(==,!new)>(kss: seq<seq<K>>): seq<K>
  {
    if kss == [] then [] else AddNew(Merged(kss[..|kss| - 1]), kss[|kss| - 1])
  }

  /** One more key merged in. */
  lemma AddNewStep<K(!new)>(acc: seq<K>, ks: seq<K>, j: nat)
    requires j < |ks|
    ensures AddNew(acc, ks[..j + 1]) ==
      if ks[j] in AddNew(acc, ks[..j]) then AddNew(acc, ks[..j]) else AddNew(acc, ks[..j]) + [ks[j]]
  {
    assert ks[..j + 1][..j] == ks[..j];
  }

  /** One more list merged in. */
  lemma MergedStep<K(!new)>(kss: seq<seq<K>>, i: nat)
    requires i < |kss|
    ensures Merged(kss[..i + 1]) == AddNew(Merged(kss[..i]), kss[i])
  {
    assert kss[..i + 1][..i] == kss[..i];
    assert kss[i][..|kss[i]|] == kss[i];
  }

  /** A merged key comes from some list, and every key of every list is kept. */
  lemma {:induction false} MergedMembers<K(!new)>(kss: seq<seq<K>>, k: K)
    ensures k in Merged(kss) <==> exists i :: 0 <= i < |kss| && k in kss[i]
    decreases |kss|
  {
    if kss != [] {
      var init := kss[..|kss| - 1];
      MergedMembers(init, k);
      AddNewMembers(Merged(init), kss[|kss| - 1]);
      if k in Merged(init) {
        var i :| 0 <= i < |init| && k in init[i];
        assert kss[i] == init[i];
      }
      if exists i :: 0 <= i < |kss| && k in kss[i] {
        var i :| 0 <= i < |kss| && k in kss[i];
        if i < |init| {
          assert kss[i] == init[i];
        }
      }
    }
  }

  /** No merged key occurs twice. */
  lemma {:induction false} MergedDistinct<K(!new)>(kss: seq<seq<K>>)
    ensures Distinct(Merged(kss))
    decreases |kss|
  {
    if kss != [] {
      MergedDistinct(kss[..|kss| - 1]);
      AddNewDistinct(Merged(kss[..|kss| - 1]), kss[|kss| - 1]);
    }
  }
}
