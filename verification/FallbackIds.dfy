/**
 Files without field ids: ids made up from top-level positions, in three places that have to agree. The column schema
 gets ids, predicates get leaf indices, and the projection gets root columns.
 */
module FallbackIds {
  import opened Prelude
  import opened Decimals
  import opened ArrowTypes

  datatype ParquetType = PrimitiveType(name: string) | GroupType(name: string, fields: seq<ParquetType>)

  // ---- leaves ----

  /** `leaf_count`. */
  function LeafCount(t: ParquetType): nat
    decreases t
  {
    match t
    case PrimitiveType(_) => 1
    case GroupType(_, fields) => LeafCounts(fields)
  }

  function LeafCounts(ts: seq<ParquetType>): nat
    decreases ts
  {
    if ts == [] then 0 else LeafCounts(ts[..|ts| - 1]) + LeafCount(ts[|ts| - 1])
  }

  /** The leaf columns of a type, flattened. */
  function Leaves(t: ParquetType): seq<ParquetType>
    decreases t
  {
    match t
    case PrimitiveType(_) => [t]
    case GroupType(_, fields) => LeavesOfAll(fields)
  }

  function LeavesOfAll(ts: seq<ParquetType>): seq<ParquetType>
    decreases ts
  {
    if ts == [] then [] else LeavesOfAll(ts[..|ts| - 1]) + Leaves(ts[|ts| - 1])
  }

  lemma {:induction false} LeafCountCounts(t: ParquetType)
    ensures LeafCount(t) == |Leaves(t)|
    decreases t
  {
    match t
    case PrimitiveType(_) =>
    case GroupType(_, fields) => LeafCountsCount(fields);
  }

  lemma {:induction false} LeafCountsCount(ts: seq<ParquetType>)
    ensures LeafCounts(ts) == |LeavesOfAll(ts)|
    decreases ts
  {
    if ts != [] {
      LeafCountsCount(ts[..|ts| - 1]);
      LeafCountCounts(ts[|ts| - 1]);
    }
  }

  /** A list of primitive fields is its own list of leaves. */
  lemma {:induction false} FlatLeaves(ts: seq<ParquetType>)
    requires forall i :: 0 <= i < |ts| ==> ts[i].PrimitiveType?
    ensures LeavesOfAll(ts) == ts
  {
    if ts != [] { FlatLeaves(ts[..|ts| - 1]); }
  }

  lemma {:induction false} LeavesConcat(a: seq<ParquetType>, b: seq<ParquetType>)
    ensures LeavesOfAll(a + b) == LeavesOfAll(a) + LeavesOfAll(b)
    decreases |b|
  {
    hide Leaves;
    if b == [] {
      assert a + b == a;
    } else {
      var n := |b| - 1;
      LeavesConcat(a, b[..n]);
      assert (a + b)[..|a + b| - 1] == a + b[..n] && (a + b)[|a + b| - 1] == b[n];
      Associates(LeavesOfAll(a), LeavesOfAll(b[..n]), Leaves(b[n]));
    }
  }

  /** Writing the fields of a group in its place leaves the leaves as they are, so nesting does not matter to them. */
  lemma {:induction false} UnnestingKeepsLeaves(
      before: seq<ParquetType>, name: string, fields: seq<ParquetType>, after: seq<ParquetType>)
    ensures LeavesOfAll(before + [GroupType(name, fields)] + after) == LeavesOfAll(before + fields + after)
  {
    var group := GroupType(name, fields);
    assert [group][..0] == [] && LeavesOfAll([group]) == [] + Leaves(group) == LeavesOfAll(fields);
    LeavesConcat(before + [group], after);
    LeavesConcat(before, [group]);
    LeavesConcat(before + fields, after);
    LeavesConcat(before, fields);
  }

  datatype LeafColumn = LeafColumn(root: nat, leaf: ParquetType)

  /** The file's columns: the leaves of every root in order, each with the root it comes from. */
  function Columns(roots: seq<ParquetType>): seq<LeafColumn> {
    if roots == [] then []
    else
      var n := |roots| - 1;
      var leaves := Leaves(roots[n]);
      Columns(roots[..n]) + seq(|leaves|, i requires 0 <= i < |leaves| => LeafColumn(n, leaves[i]))
  }

  /** The columns of a file are its leaves, in order. */
  lemma {:induction false} ColumnsAreLeaves(roots: seq<ParquetType>)
    ensures |Columns(roots)| == |LeavesOfAll(roots)|
    ensures forall k :: 0 <= k < |Columns(roots)| ==> Columns(roots)[k].leaf == LeavesOfAll(roots)[k]
    ensures forall j, k :: 0 <= j <= k < |Columns(roots)| ==> Columns(roots)[j].root <= Columns(roots)[k].root
  {
    hide Leaves;
    if roots != [] {
      ColumnsAreLeaves(roots[..|roots| - 1]);
      RootsInRange(roots[..|roots| - 1]);
    }
  }

  lemma {:induction false} ColumnsCount(roots: seq<ParquetType>)
    ensures |Columns(roots)| == LeafCounts(roots)
  {
    if roots != [] {
      ColumnsCount(roots[..|roots| - 1]);
      LeafCountCounts(roots[|roots| - 1]);
    }
  }

  /** The leaves of a root start after those of the roots before it. */
  lemma {:induction false} ColumnsOfRoot(roots: seq<ParquetType>, p: nat, i: nat)
    requires p < |roots| && i < LeafCount(roots[p])
    ensures LeafCounts(roots[..p]) + i < |Columns(roots)| && i < |Leaves(roots[p])|
    ensures Columns(roots)[LeafCounts(roots[..p]) + i] == LeafColumn(p, Leaves(roots[p])[i])
    decreases |roots|
  {
    hide Leaves, LeafCount, LeafCounts;
    var n := |roots| - 1;
    LeafCountCounts(roots[p]);
    ColumnsCount(roots[..n]);
    if p < n {
      assert roots[..n][..p] == roots[..p];
      ColumnsOfRoot(roots[..n], p, i);
    }
  }

  lemma {:induction false} RootsInRange(roots: seq<ParquetType>)
    ensures forall k :: 0 <= k < |Columns(roots)| ==> Columns(roots)[k].root < |roots|
  {
    hide Leaves;
    if roots != [] { RootsInRange(roots[..|roots| - 1]); }
  }

  // ---- ids to leaf indices ----

  /** What the map holds for an id: the first leaf of the root at that position, if the root is itself a leaf. */
  predicate LeafIndexFor(roots: seq<ParquetType>, id: int) { InFile(roots, id) && roots[id - 1].PrimitiveType? }

  ghost predicate IsFallbackMap(roots: seq<ParquetType>, columnMap: map<i32, nat>) {
    && (forall id :: id in columnMap <==> LeafIndexFor(roots, id))
    && (forall id :: id in columnMap ==> OwnLeafAt(roots, id, columnMap[id]))
  }

  /** The column is the leaf of the root whose position is one less than the id. */
  predicate OwnLeafAt(roots: seq<ParquetType>, id: int, k: nat) {
    InFile(roots, id) && k < |Columns(roots)| && Columns(roots)[k] == LeafColumn(id - 1, roots[id - 1])
  }

  predicate InFile(roots: seq<ParquetType>, id: int) { 1 <= id <= |roots| }

  /**
   `build_fallback_field_id_map`: an entry for exactly the primitive top-level fields, whose value is the index of that
   field's own leaf among all columns.
   */
  method BuildFallbackFieldIdMap(roots: seq<ParquetType>) returns (columnMap: map<i32, nat>)
    requires |roots| <= MAX_I32
    ensures IsFallbackMap(roots, columnMap)
    ensures forall id: i32 :: id in columnMap <==> 1 <= id <= |roots| && roots[id - 1].PrimitiveType?
    ensures forall id: i32 :: id in columnMap ==> columnMap[id] == |LeavesOfAll(roots[..id - 1])|
  {
    hide Columns, LeafCount, Leaves;
    columnMap := map[];
    var leafIdx := 0;
    for topPos := 0 to |roots|
      invariant leafIdx == LeafCounts(roots[..topPos])
      invariant forall id :: id in columnMap <==> id <= topPos && LeafIndexFor(roots, id)
      invariant forall id :: id in columnMap ==> OwnLeafAt(roots, id, columnMap[id])
    {
      var field := roots[topPos];
      var fieldId: i32 := topPos + 1;
      if field.PrimitiveType? {
        OwnLeaf(roots, topPos);
        columnMap := columnMap[fieldId := leafIdx];
      }
      assert roots[..topPos + 1][..topPos] == roots[..topPos];
      leafIdx := leafIdx + LeafCount(field);
    }
    MapByLeaves(roots, columnMap);
  }

  lemma {:induction false} MapByLeaves(roots: seq<ParquetType>, columnMap: map<i32, nat>)
    requires IsFallbackMap(roots, columnMap)
    ensures forall id: i32 :: id in columnMap <==> 1 <= id <= |roots| && roots[id - 1].PrimitiveType?
    ensures forall id: i32 :: id in columnMap ==> columnMap[id] == |LeavesOfAll(roots[..id - 1])|
  {
    hide Columns, LeafCounts, LeavesOfAll;
    forall id: i32 | id in columnMap ensures columnMap[id] == |LeavesOfAll(roots[..id - 1])| {
      assert OwnLeafAt(roots, id, columnMap[id]);
      OneLeafEach(roots, id - 1, columnMap[id]);
      LeafCountsCount(roots[..id - 1]);
    }
  }

  lemma {:induction false} OwnLeaf(roots: seq<ParquetType>, p: nat)
    requires p < |roots| && roots[p].PrimitiveType?
    ensures OwnLeafAt(roots, p + 1, LeafCounts(roots[..p]))
  {
    ColumnsOfRoot(roots, p, 0);
  }

  // ---- ids on the column schema ----

  function WithId(f: Field, id: i32): Field { f.(metadata := f.metadata[FIELD_ID_KEY := Signed(id)]) }

  /** `add_fallback_field_ids_to_arrow_schema`: top-level fields only, counted from one. */
  function AddFallbackIds(fields: seq<Field>): (r: seq<Field>)
    requires |fields| <= MAX_I32
    ensures |r| == |fields|
    ensures forall p :: 0 <= p < |r| ==>
                          && r[p].dataType == fields[p].dataType && r[p].name == fields[p].name
                          && r[p].nullable == fields[p].nullable
  {
    seq(|fields|, p requires 0 <= p < |fields| => WithId(fields[p], p + 1))
  }

  lemma {:induction false} FallbackIdIsRead(fields: seq<Field>, p: nat)
    requires p < |fields| <= MAX_I32
    ensures FieldIdOf(AddFallbackIds(fields)[p]) == Some(p + 1)
    ensures AddFallbackIds(fields)[p].metadata - {FIELD_ID_KEY} == fields[p].metadata - {FIELD_ID_KEY}
  {
    ParseSigned(p + 1);
  }

  // ---- ids to projected columns ----

  datatype ProjectionMask = All | Mask(leaves: seq<bool>)

  /** `(field_id - 1) as usize`, wrapping below one. */
  function Position(id: i32): nat {
    if id == MIN_I32 then MAX_I32 else if id < 1 then id - 1 + TWO_64 else id - 1
  }

  /** `ProjectionMask::roots`: the leaves of the given roots. */
  function MaskOfRoots(roots: seq<ParquetType>, indices: seq<nat>): ProjectionMask {
    Mask(seq(|Columns(roots)|, k requires 0 <= k < |Columns(roots)| => Columns(roots)[k].root in indices))
  }

  ghost predicate IsFallbackMask(roots: seq<ParquetType>, fieldIds: seq<i32>, mask: ProjectionMask) {
    && (mask.All? <==> forall i :: 0 <= i < |fieldIds| ==> !InFile(roots, fieldIds[i]))
    && (mask.Mask? ==> |mask.leaves| == |Columns(roots)| &&
                       forall k :: 0 <= k < |mask.leaves| ==>
                              (mask.leaves[k] <==> Asked(roots, fieldIds, Columns(roots)[k].root)))
  }

  /** The id of a root, one more than its position, is among the ids. */
  predicate Asked(roots: seq<ParquetType>, fieldIds: seq<i32>, root: nat) {
    exists i :: 0 <= i < |fieldIds| && InFile(roots, fieldIds[i]) && fieldIds[i] - 1 == root
  }

  /**
   `get_arrow_projection_mask_fallback`: with some id inside the file, a leaf is read exactly when the id of its root,
   one more than its position, is asked for; with none, every column is read.
   */
  method GetProjectionMaskFallback(fieldIds: seq<i32>, roots: seq<ParquetType>) returns (mask: ProjectionMask)
    requires |roots| <= MAX_I32
    ensures IsFallbackMask(roots, fieldIds, mask)
    ensures mask.All? <==> forall id :: id in fieldIds ==> !(1 <= id <= |roots|)
    ensures mask.Mask? ==> |mask.leaves| == |Columns(roots)| &&
                           forall k :: 0 <= k < |mask.leaves| ==>
                             (mask.leaves[k] <==> exists id :: id in fieldIds && id == Columns(roots)[k].root + 1)
  {
    hide Columns;
    var rootIndices: seq<nat> := [];
    for i := 0 to |fieldIds|
      invariant forall r :: r in rootIndices <==> Asked(roots, fieldIds[..i], r)
      invariant rootIndices == [] <==> forall j :: 0 <= j < i ==> !InFile(roots, fieldIds[j])
    {
      var parquetPos := Position(fieldIds[i]);
      AskedStep(roots, fieldIds, i);
      if parquetPos < |roots| { rootIndices := rootIndices + [parquetPos]; }
    }
    assert fieldIds[..|fieldIds|] == fieldIds;
    RootsInRange(roots);
    mask := if rootIndices == [] then All else MaskOfRoots(roots, rootIndices);
    MaskByIds(roots, fieldIds, mask);
  }

  lemma {:induction false} MaskByIds(roots: seq<ParquetType>, fieldIds: seq<i32>, mask: ProjectionMask)
    requires IsFallbackMask(roots, fieldIds, mask)
    ensures mask.All? <==> forall id :: id in fieldIds ==> !(1 <= id <= |roots|)
    ensures mask.Mask? ==> |mask.leaves| == |Columns(roots)| &&
                           forall k :: 0 <= k < |mask.leaves| ==>
                             (mask.leaves[k] <==> exists id :: id in fieldIds && id == Columns(roots)[k].root + 1)
  {
    hide Columns;
    RootsInRange(roots);
    if mask.All? {
      forall id | id in fieldIds ensures !(1 <= id <= |roots|) {
        var i :| 0 <= i < |fieldIds| && fieldIds[i] == id;
        assert !InFile(roots, fieldIds[i]);
      }
    } else {
      var i :| 0 <= i < |fieldIds| && InFile(roots, fieldIds[i]);
      assert fieldIds[i] in fieldIds;
      forall k | 0 <= k < |mask.leaves|
        ensures mask.leaves[k] <==> exists id :: id in fieldIds && id == Columns(roots)[k].root + 1
      {
        var root := Columns(roots)[k].root;
        assert mask.leaves[k] <==> Asked(roots, fieldIds, root);
        if Asked(roots, fieldIds, root) {
          var i :| 0 <= i < |fieldIds| && InFile(roots, fieldIds[i]) && fieldIds[i] - 1 == root;
          assert fieldIds[i] in fieldIds && fieldIds[i] == root + 1;
        }
        if id :| id in fieldIds && id == root + 1 {
          var i :| 0 <= i < |fieldIds| && fieldIds[i] == id;
          assert InFile(roots, fieldIds[i]);
        }
      }
    }
  }

  // ---- the three agree ----

  lemma {:induction false} AskedStep(roots: seq<ParquetType>, fieldIds: seq<i32>, i: nat)
    requires i < |fieldIds|
    ensures forall r :: Asked(roots, fieldIds[..i + 1], r) <==>
                        Asked(roots, fieldIds[..i], r) || (InFile(roots, fieldIds[i]) && fieldIds[i] - 1 == r)
  {
    forall r ensures Asked(roots, fieldIds[..i + 1], r) <==>
                     Asked(roots, fieldIds[..i], r) || (InFile(roots, fieldIds[i]) && fieldIds[i] - 1 == r)
    {
      var next := fieldIds[..i + 1];
      assert next[i] == fieldIds[i];
      assert forall j :: 0 <= j < i ==> next[j] == fieldIds[..i][j];
    }
  }

  /**
   For a primitive column at any position: the id its schema field carries is the id the map has an entry for, the
   entry is the column's own leaf, and asking for that id projects that leaf. No id leads to a nested leaf.
   */
  lemma {:induction false} FallbacksAgree(
      fields: seq<Field>, roots: seq<ParquetType>, columnMap: map<i32, nat>, fieldIds: seq<i32>,
      mask: ProjectionMask, p: nat)
    requires p < |fields| == |roots| <= MAX_I32
    requires IsFallbackMap(roots, columnMap) && IsFallbackMask(roots, fieldIds, mask)
    ensures var id := FieldIdOf(AddFallbackIds(fields)[p]);
            && id == Some(p + 1)
            && (id.value in columnMap <==> roots[p].PrimitiveType?)
            && (roots[p].PrimitiveType? ==>
                  && columnMap[id.value] == LeafCounts(roots[..p])
                  && OwnLeafAt(roots, id.value, columnMap[id.value])
                  && (id.value in fieldIds ==> mask.Mask? && mask.leaves[columnMap[id.value]]))
  {
    hide Columns, LeafCounts, FieldIdOf, Signed;
    FallbackIdIsRead(fields, p);
    if roots[p].PrimitiveType? {
      OwnLeaf(roots, p);
      OneLeafEach(roots, p, columnMap[p + 1]);
      if p + 1 in fieldIds {
        var i :| 0 <= i < |fieldIds| && fieldIds[i] == p + 1;
        assert InFile(roots, fieldIds[i]);
      }
    }
  }

  /** A primitive root has one column, so the column of that root is known by its index. */
  lemma {:induction false} OneLeafEach(roots: seq<ParquetType>, p: nat, k: nat)
    requires p < |roots| && roots[p].PrimitiveType? && k < |Columns(roots)| && Columns(roots)[k].root == p
    ensures k == LeafCounts(roots[..p])
    decreases |roots|
  {
    hide LeafCounts, LeafCount;
    var n := |roots| - 1;
    RootsInRange(roots[..n]);
    ColumnsCount(roots[..n]);
    if p < n {
      assert roots[..n][..p] == roots[..p];
      assert k < |Columns(roots[..n])|;
      OneLeafEach(roots[..n], p, k);
    }
  }
}
