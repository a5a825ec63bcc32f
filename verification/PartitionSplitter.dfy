/** Splitting a record batch into one batch per partition value. */
module PartitionSplitter {
  import opened Prelude

  // ---- which rows go where ----

  /** The positions of the rows with a partition value. */
  function RowIds<K(==)>(keys: seq<K>, key: K): (r: seq<nat>)
    ensures forall i :: 0 <= i < |r| ==> r[i] < |keys| && keys[r[i]] == key
    ensures forall row :: 0 <= row < |keys| && keys[row] == key ==> row in r
  {
    if keys == [] then []
    else
      var n := |keys| - 1;
      assert keys == keys[..n] + [keys[n]];
      RowIds(keys[..n], key) + if keys[n] == key then [n] else []
  }

  /** The rows with a partition value, in their order. */
  function RowsOf<R, K(==)>(batch: seq<R>, keys: seq<K>, key: K): seq<R>
    requires |batch| == |keys|
  {
    if keys == [] then []
    else
      var n := |keys| - 1;
      RowsOf(batch[..n], keys[..n], key) + if keys[n] == key then [batch[n]] else []
  }

  /** `filter_record_batch`: the rows where the filter is set. */
  function FilterBatch<R>(batch: seq<R>, filter: seq<bool>): seq<R>
    requires |batch| == |filter|
  {
    if batch == [] then []
    else
      var n := |batch| - 1;
      FilterBatch(batch[..n], filter[..n]) + if filter[n] then [batch[n]] else []
  }

  lemma {:induction false} FilterByKey<R, K>(batch: seq<R>, keys: seq<K>, key: K, filter: seq<bool>)
    requires |batch| == |keys| == |filter|
    requires forall i :: 0 <= i < |filter| ==> (filter[i] <==> keys[i] == key)
    ensures FilterBatch(batch, filter) == RowsOf(batch, keys, key)
  {
    if batch != [] {
      var n := |batch| - 1;
      FilterByKey(batch[..n], keys[..n], key, filter[..n]);
    }
  }

  /** The rows of a key are the batch's rows at the positions with that key, in ascending order. */
  lemma {:induction false} RowsInOrder<R, K>(batch: seq<R>, keys: seq<K>, key: K)
    requires |batch| == |keys|
    ensures |RowIds(keys, key)| == |RowsOf(batch, keys, key)|
    ensures forall i :: 0 <= i < |RowIds(keys, key)| ==> RowsOf(batch, keys, key)[i] == batch[RowIds(keys, key)[i]]
    ensures forall i, j :: 0 <= i < j < |RowIds(keys, key)| ==> RowIds(keys, key)[i] < RowIds(keys, key)[j]
    decreases |keys|
  {
    if keys != [] {
      var n := |keys| - 1;
      RowsInOrder(batch[..n], keys[..n], key);
      assert forall i :: 0 <= i < |RowIds(keys[..n], key)| ==> RowIds(keys[..n], key)[i] < n;
    }
  }

  /** The given rows are the batch's at the ascending positions that have the key, all of them. */
  ghost predicate TakesRows<R, K>(batch: seq<R>, keys: seq<K>, key: K, rows: seq<R>)
    requires |batch| == |keys|
  {
    exists at: seq<nat> ::
      && Ascending(at) && (forall row: nat :: row in at <==> row < |keys| && keys[row] == key)
      && |rows| == |at| && forall m :: 0 <= m < |at| ==> at[m] < |batch| && rows[m] == batch[at[m]]
  }

  lemma {:induction false} RowsOfTakesRows<R, K>(batch: seq<R>, keys: seq<K>, key: K)
    requires |batch| == |keys|
    ensures TakesRows(batch, keys, key, RowsOf(batch, keys, key))
  {
    hide RowsOf;
    RowsInOrder(batch, keys, key);
    var at := RowIds(keys, key);
    hide RowIds;
    assert forall row: nat :: row in at <==> row < |keys| && keys[row] == key;
  }

  // ---- splitting ----

  predicate Distinct<T(==)>(s: seq<T>) { forall i, j :: 0 <= i < j < |s| ==> s[i] != s[j] }

  /** The parts for a list of keys: each key with its rows. */
  function PartsFor<R, K(==)>(batch: seq<R>, keys: seq<K>, names: seq<K>): (r: seq<(K, seq<R>)>)
    requires |batch| == |keys|
    ensures |r| == |names| && forall i :: 0 <= i < |r| ==> r[i] == (names[i], RowsOf(batch, keys, names[i]))
  {
    seq(|names|, i requires 0 <= i < |names| => (names[i], RowsOf(batch, keys, names[i])))
  }

  function Names<R, K>(parts: seq<(K, seq<R>)>): (r: seq<K>)
    ensures |r| == |parts| && forall i :: 0 <= i < |r| ==> r[i] == parts[i].0
  {
    seq(|parts|, i requires 0 <= i < |parts| => parts[i].0)
  }

  /** Distinct keys, exactly those of the rows, each with its rows in order. */
  ghost predicate IsSplit<R, K>(batch: seq<R>, keys: seq<K>, parts: seq<(K, seq<R>)>)
    requires |batch| == |keys|
  {
    var names := Names(parts);
    && Distinct(names) && parts == PartsFor(batch, keys, names)
    && (forall i :: 0 <= i < |names| ==> names[i] in keys)
    && (forall row :: 0 <= row < |keys| ==> keys[row] in names)
  }

  method GroupRows<K(==)>(keys: seq<K>) returns (groupIds: map<K, seq<nat>>)
    ensures forall key :: key in groupIds <==> key in keys
    ensures forall key :: key in groupIds ==> groupIds[key] == RowIds(keys, key)
  {
    hide RowIds;
    groupIds := map[];
    for rowId := 0 to |keys|
      invariant forall key :: key in groupIds <==> key in keys[..rowId]
      invariant forall key :: key in groupIds ==> groupIds[key] == RowIds(keys[..rowId], key)
    {
      var row := keys[rowId];
      NewRow(keys, rowId);
      groupIds := groupIds[row := (if row in groupIds then groupIds[row] else []) + [rowId]];
    }
    assert keys[..|keys|] == keys;
  }

  lemma {:induction false} NewRow<K>(keys: seq<K>, i: nat)
    requires i < |keys|
    ensures forall key :: key in keys[..i + 1] <==> key in keys[..i] || key == keys[i]
    ensures forall key :: key != keys[i] ==> RowIds(keys[..i + 1], key) == RowIds(keys[..i], key)
    ensures RowIds(keys[..i + 1], keys[i]) == (if keys[i] in keys[..i] then RowIds(keys[..i], keys[i]) else []) + [i]
  {
    assert keys[..i + 1] == keys[..i] + [keys[i]];
    assert keys[..i + 1][..i] == keys[..i];
    ghost var ids := RowIds(keys[..i], keys[i]);
    if ids != [] { assert keys[..i][ids[0]] == keys[i]; }
    forall key | key != keys[i] ensures RowIds(keys[..i + 1], key) == RowIds(keys[..i], key) {
      assert RowIds(keys[..i + 1], key) == RowIds(keys[..i], key) + [];
    }
  }

  /** One boolean buffer per partition, all false and then set in place at the partition's rows. */
  method FilterArray<K(==)>(keys: seq<K>, key: K, rowIds: seq<nat>) returns (filter: array<bool>)
    requires rowIds == RowIds(keys, key)
    ensures fresh(filter) && filter.Length == |keys|
    ensures forall i :: 0 <= i < |keys| ==> (filter[i] <==> keys[i] == key)
  {
    hide RowIds;
    filter := new bool[|keys|](_ => false);
    for k := 0 to |rowIds|
      invariant forall i: nat :: i < |keys| ==> (filter[i] <==> i in rowIds[..k])
    {
      assert rowIds[..k + 1] == rowIds[..k] + [rowIds[k]];
      filter[rowIds[k]] := true;
    }
    assert rowIds[..|rowIds|] == rowIds;
    assert forall i: nat :: i < |keys| ==> (filter[i] <==> i in rowIds);
  }

  /** The grouping and filtering of `split`; the order of the partitions is the hash map's and not specified. */
  method Split<R, K(==)>(batch: seq<R>, keys: seq<K>) returns (parts: seq<(K, seq<R>)>)
    requires |batch| == |keys|
    ensures IsSplit(batch, keys, parts)
    ensures forall i, j :: 0 <= i < j < |parts| ==> parts[i].0 != parts[j].0
    ensures forall key :: key in keys <==> exists part :: part in parts && part.0 == key
    ensures forall part :: part in parts ==> TakesRows(batch, keys, part.0, part.1)
  {
    hide RowsOf, RowIds, FilterBatch, PartsFor, Names, TakesRows;
    var groupIds := GroupRows(keys);
    parts := [];
    ghost var names: seq<K> := [];
    var left := groupIds.Keys;
    while left != {}
      invariant left <= groupIds.Keys && Distinct(names)
      invariant forall key :: key in names <==> key in groupIds.Keys && key !in left
      invariant parts == PartsFor(batch, keys, names)
      decreases |left|
    {
      var row :| row in left;
      var filter := FilterArray(keys, row, groupIds[row]);
      FilterByKey(batch, keys, row, filter[..]);
      parts := parts + [(row, FilterBatch(batch, filter[..]))];
      PushPart(batch, keys, names, row);
      names := names + [row];
      left := left - {row};
    }
    assert Names(parts) == names;
    forall row | 0 <= row < |keys| ensures keys[row] in names {
      assert keys[row] in groupIds.Keys;
    }
    SplitInOrder(batch, keys, parts);
  }

  /** What a split is, said of the rows: every part takes the batch's rows at the positions of its key, in order. */
  lemma {:induction false} SplitInOrder<R, K>(batch: seq<R>, keys: seq<K>, parts: seq<(K, seq<R>)>)
    requires |batch| == |keys| && IsSplit(batch, keys, parts)
    ensures forall i, j :: 0 <= i < j < |parts| ==> parts[i].0 != parts[j].0
    ensures forall key :: key in keys <==> exists part :: part in parts && part.0 == key
    ensures forall part :: part in parts ==> TakesRows(batch, keys, part.0, part.1)
  {
    hide RowsOf, TakesRows;
    var names := Names(parts);
    forall key ensures key in keys <==> exists part :: part in parts && part.0 == key {
      if key in keys {
        var i :| 0 <= i < |names| && names[i] == key;
        assert parts[i] in parts && parts[i].0 == key;
      }
    }
    forall part | part in parts ensures TakesRows(batch, keys, part.0, part.1) {
      var i :| 0 <= i < |parts| && parts[i] == part;
      RowsOfTakesRows(batch, keys, names[i]);
    }
  }

  lemma {:induction false} PushPart<R, K>(batch: seq<R>, keys: seq<K>, names: seq<K>, name: K)
    requires |batch| == |keys|
    ensures PartsFor(batch, keys, names + [name]) == PartsFor(batch, keys, names) + [(name, RowsOf(batch, keys, name))]
  {
    hide RowsOf;
  }

  // ---- nothing lost, nothing doubled ----

  /** All rows of all parts. */
  function Together<R, K>(parts: seq<(K, seq<R>)>): multiset<R> {
    if parts == [] then multiset{} else Together(parts[..|parts| - 1]) + multiset(parts[|parts| - 1].1)
  }

  function Sizes<R, K>(parts: seq<(K, seq<R>)>): nat {
    if parts == [] then 0 else Sizes(parts[..|parts| - 1]) + |parts[|parts| - 1].1|
  }

  function One<R>(present: bool, r: R): multiset<R> { if present then multiset{r} else multiset{} }

  /** One more row adds exactly itself, to the one part with its key. */
  lemma {:induction false} OneMoreRow<R, K>(batch: seq<R>, keys: seq<K>, names: seq<K>)
    requires |batch| == |keys| > 0 && Distinct(names)
    ensures var n := |keys| - 1;
            Together(PartsFor(batch, keys, names)) ==
            Together(PartsFor(batch[..n], keys[..n], names)) + One(keys[n] in names, batch[n])
    decreases |names|
  {
    hide Together, PartsFor, RowsOf;
    var n := |keys| - 1;
    if names == [] {
      assert PartsFor(batch, keys, names) == PartsFor(batch[..n], keys[..n], names);
    } else {
      var m := |names| - 1;
      OneMoreRow(batch, keys, names[..m]);
      PartsForPrefix(batch, keys, names);
      PartsForPrefix(batch[..n], keys[..n], names);
      LastRow(batch, keys, names[m]);
      assert names == names[..m] + [names[m]];
    }
  }

  lemma {:induction false} PartsForPrefix<R, K>(batch: seq<R>, keys: seq<K>, names: seq<K>)
    requires |batch| == |keys| && names != []
    ensures var all, m := PartsFor(batch, keys, names), |names| - 1;
            Together(all) == Together(PartsFor(batch, keys, names[..m])) + multiset(RowsOf(batch, keys, names[m]))
  {
    hide RowsOf;
    assert PartsFor(batch, keys, names)[..|names| - 1] == PartsFor(batch, keys, names[..|names| - 1]);
  }

  lemma {:induction false} LastRow<R, K>(batch: seq<R>, keys: seq<K>, key: K)
    requires |batch| == |keys| > 0
    ensures var n := |keys| - 1;
            multiset(RowsOf(batch, keys, key)) ==
            multiset(RowsOf(batch[..n], keys[..n], key)) + One(keys[n] == key, batch[n])
  {
  }

  lemma {:induction false} AllRowsOnce<R, K>(batch: seq<R>, keys: seq<K>, names: seq<K>)
    requires |batch| == |keys| && Distinct(names)
    requires forall row :: 0 <= row < |keys| ==> keys[row] in names
    ensures Together(PartsFor(batch, keys, names)) == multiset(batch)
    decreases |batch|
  {
    hide Together, PartsFor, RowsOf, Distinct;
    if batch == [] {
      NoRows(batch, keys, names);
    } else {
      var n := |keys| - 1;
      AllRowsOnce(batch[..n], keys[..n], names);
      OneMoreRow(batch, keys, names);
      assert batch == batch[..n] + [batch[n]];
    }
  }

  lemma {:induction false} NoRows<R, K>(batch: seq<R>, keys: seq<K>, names: seq<K>)
    requires |batch| == |keys| == 0
    ensures Together(PartsFor(batch, keys, names)) == multiset{}
    decreases |names|
  {
    if names != [] {
      NoRows(batch, keys, names[..|names| - 1]);
      PartsForPrefix(batch, keys, names);
    }
  }

  lemma {:induction false} SizesAdd<R, K>(parts: seq<(K, seq<R>)>)
    ensures Sizes(parts) == |Together(parts)|
  {
    if parts != [] { SizesAdd(parts[..|parts| - 1]); }
  }

  /** Every row of the batch is in the parts as often as in the batch, and the sizes add up to the batch's. */
  lemma {:induction false} SplitConserves<R, K>(batch: seq<R>, keys: seq<K>, parts: seq<(K, seq<R>)>)
    requires |batch| == |keys| && IsSplit(batch, keys, parts)
    ensures Together(parts) == multiset(batch)
    ensures Sizes(parts) == |batch|
  {
    AllRowsOnce(batch, keys, Names(parts));
    SizesAdd(parts);
  }
}
