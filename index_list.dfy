/** `IndexList` from pynbody/halo/__init__.py: which particles belong to
    which object (halo), as contiguous ranges of one particle-index array. */
module IndexLists {
  import opened Wrappers
  import opened Seqs

  /** `particleIds[boundaries[k] .. boundaries[k+1]]` (or to the end for the
      last object) are the particles of object `uniqueObjNumbers[k]`. */
  datatype IndexList = IndexList(particleIds: seq<int>, uniqueObjNumbers: seq<int>, boundaries: seq<nat>)

  /** What every constructed IndexList satisfies: distinct object numbers,
      one non-decreasing boundary per object, none past the particle array. */
  predicate Valid(il: IndexList) {
    && Distinct(il.uniqueObjNumbers)
    && NonDecreasing(il.boundaries)
    && |il.boundaries| == |il.uniqueObjNumbers|
    && (|il.boundaries| > 0 ==> il.boundaries[|il.boundaries| - 1] <= |il.particleIds|)
  }

  /** `len(index_list)`: the number of objects. */
  function Count(il: IndexList): nat {
    |il.uniqueObjNumbers|
  }

  // ---------------------------------------------------------------------
  // Construction

  /** `IndexList(object_id_per_particle=a)`: a stable argsort of `a`, the
      distinct IDs, and for each ID the first sorted position holding it. */
  function FromObjectIds(a: seq<int>): IndexList {
    StableArgsortInRange(a);
    var p := StableArgsort(a);
    var u := Unique(a);
    var sorted := Gather(a, p);
    IndexList(p, u, seq(|u|, k requires 0 <= k < |u| => SearchSorted(sorted, u[k])))
  }

  /** `(np.diff(boundaries) >= 0).all()` */
  predicate DiffsNonNegative(b: seq<nat>) {
    forall k :: 0 <= k < |b| - 1 ==> b[k] <= b[k + 1]
  }

  /** `IndexList(particle_ids=p, unique_obj_numbers=u, boundaries=b)`: the
      assertions of the constructor, in the order the source checks them. */
  function FromParts(p: seq<int>, u: seq<int>, b: seq<nat>): Result<IndexList> {
    if |Unique(u)| != |u| then Failure(AssertionError)
    else if !DiffsNonNegative(b) then Failure(AssertionError)
    else if |b| != |u| then Failure(AssertionError)
    else if |b| == 0 then Failure(IndexError)          // boundaries[-1] of an empty array
    else if b[|b| - 1] > |p| then Failure(AssertionError)
    else Success(IndexList(p, u, b))
  }

  // ---------------------------------------------------------------------
  // Lookup

  /** `_get_obj_offset_from_id`: binary search, then an exact-match check. */
  function ObjOffset(il: IndexList, id: int): (r: Result<nat>)
    requires Valid(il)
    ensures r.Success? ==> r.value < Count(il) && il.uniqueObjNumbers[r.value] == id
    ensures r.Failure? ==> r.error == KeyError
  {
    var k := SearchSorted(il.uniqueObjNumbers, id);
    if k >= |il.uniqueObjNumbers| || il.uniqueObjNumbers[k] != id then Failure(KeyError)
    else Success(k)
  }

  /** Start of the slice of `_get_index_slice_from_obj_offset`. */
  function SliceStart(il: IndexList, k: nat): nat
    requires Valid(il) && k < Count(il)
  {
    il.boundaries[k]
  }

  /** End of the slice: the next boundary, or the end for the last object. */
  function SliceEnd(il: IndexList, k: nat): (e: nat)
    requires Valid(il) && k < Count(il)
    ensures SliceStart(il, k) <= e <= |il.particleIds|
  {
    if k == Count(il) - 1 then |il.particleIds| else il.boundaries[k + 1]
  }

  /** The particles of the object at offset `k`. */
  function Members(il: IndexList, k: nat): seq<int>
    requires Valid(il) && k < Count(il)
  {
    il.particleIds[SliceStart(il, k)..SliceEnd(il, k)]
  }

  /** `get_index_list(id)` (also `il[id]`). */
  function GetIndexList(il: IndexList, id: int): Result<seq<int>>
    requires Valid(il)
  {
    match ObjOffset(il, id)
    case Success(k) => Success(Members(il, k))
    case Failure(e) => Failure(e)
  }

  // ---------------------------------------------------------------------
  // get_object_id_per_particle

  /** `np.diff(np.concatenate((boundaries, [len(particle_ids)])))` */
  function Lengths(il: IndexList): (r: seq<int>)
    requires Valid(il)
    ensures |r| == Count(il)
  {
    seq(Count(il), k requires 0 <= k < Count(il) => SliceEnd(il, k) - SliceStart(il, k))
  }

  function Negated(s: seq<int>): (r: seq<int>)
    ensures |r| == |s| && forall k :: 0 <= k < |s| ==> r[k] == -s[k]
  {
    seq(|s|, k requires 0 <= k < |s| => -s[k])
  }

  /** `np.argsort(-lengths, kind='stable')`: longest objects first. */
  function Ordering(il: IndexList): (order: seq<int>)
    requires Valid(il)
    ensures forall j :: 0 <= j < |order| ==> 0 <= order[j] < Count(il)
  {
    StableArgsortInRange(Negated(Lengths(il)));
    StableArgsort(Negated(Lengths(il)))
  }

  /** The ordering lists every object once, longest first, equal lengths
      by ascending offset. */
  lemma OrderingSpec(il: IndexList)
    requires Valid(il)
    ensures |Ordering(il)| == Count(il)
    ensures forall k :: 0 <= k < Count(il) ==> k in Ordering(il)
    ensures forall i, j :: 0 <= i < j < |Ordering(il)| ==>
      var len := Lengths(il);
      len[Ordering(il)[j]] < len[Ordering(il)[i]]
      || (len[Ordering(il)[j]] == len[Ordering(il)[i]] && Ordering(il)[i] < Ordering(il)[j])
  {
    var keys := Negated(Lengths(il));
    var order := Ordering(il);
    StableArgsortCorrect(keys);
    forall i, j | 0 <= i < j < |order|
      ensures var len := Lengths(il);
        len[order[j]] < len[order[i]] || (len[order[j]] == len[order[i]] && order[i] < order[j])
    {
      assert KeyLess(keys, order[i], order[j]);
    }
  }

  /** Some entry of `ids` addresses position `q` of an axis of length `n`. */
  predicate Hits(ids: seq<int>, q: nat, n: nat) {
    exists t :: 0 <= t < |ids| && NormIndex(ids[t], n) == Some(q)
  }

  predicate AllInRange(ids: seq<int>, n: nat) {
    forall t :: 0 <= t < |ids| ==> NormIndex(ids[t], n).Some?
  }

  /** `arr[ids] = v` in numpy. */
  function WriteAll(arr: seq<int>, ids: seq<int>, v: int): (r: Result<seq<int>>)
    ensures r.Success? ==> |r.value| == |arr|
    ensures r.Failure? ==> r.error == IndexError
  {
    if |ids| == 0 then Success(arr)
    else
      match WriteAll(arr, ids[..|ids| - 1], v)
      case Failure(e) => Failure(e)
      case Success(w) =>
        match NormIndex(ids[|ids| - 1], |arr|)
        case None => Failure(IndexError)
        case Some(q) => Success(w[q := v])
  }

  /** The body of the loop over `ordering`: each object's particles are
      overwritten with its ID, in the order given. */
  function Paint(il: IndexList, arr: seq<int>, order: seq<int>): (r: Result<seq<int>>)
    requires Valid(il)
    requires forall j :: 0 <= j < |order| ==> 0 <= order[j] < Count(il)
    ensures r.Success? ==> |r.value| == |arr|
    ensures r.Failure? ==> r.error == IndexError
  {
    if |order| == 0 then Success(arr)
    else
      match Paint(il, arr, order[..|order| - 1])
      case Failure(e) => Failure(e)
      case Success(w) =>
        var k := order[|order| - 1];
        var res := WriteAll(w, Members(il, k), il.uniqueObjNumbers[k]);
        if res.Success? then Success(res.value) else Failure(IndexError)
  }

  /** `np.empty(n)` after `.fill(v)`. */
  function Filled(n: nat, v: int): (r: seq<int>)
    ensures |r| == n && forall i :: 0 <= i < n ==> r[i] == v
  {
    seq(n, _ => v)
  }

  /** `get_object_id_per_particle(sim_length, fill_value)` */
  function GroupArray(il: IndexList, simLength: nat, fill: int): (r: Result<seq<int>>)
    requires Valid(il)
    ensures r.Success? ==> |r.value| == simLength
  {
    Paint(il, Filled(simLength, fill), Ordering(il))
  }

  /** The same, as the source computes it: an array filled with
      `fill_value`, then one masked write per object, longest first. */
  method GetObjectIdPerParticle(il: IndexList, simLength: nat, fill: int) returns (r: Result<seq<int>>)
    requires Valid(il)
    ensures r == GroupArray(il, simLength, fill)
  {
    var order := Ordering(il);
    var ids := new int[simLength];
    forall i | 0 <= i < simLength {
      ids[i] := fill;
    }
    ghost var init := Filled(simLength, fill);
    assert ids[..] == init;
    var j := 0;
    while j < |order|
      invariant 0 <= j <= |order|
      invariant Paint(il, init, order[..j]) == Success(ids[..])
    {
      var k := order[j];
      PaintSnoc(il, init, order, j);
      ghost var before := ids[..];
      var ok := WriteMembers(ids, Members(il, k), il.uniqueObjNumbers[k]);
      if !ok {
        PaintFailsAt(il, init, order, j, before);
        return Failure(IndexError);
      }
      j := j + 1;
    }
    assert order[..|order|] == order;
    r := Success(ids[..]);
  }

  /** `ids[members] = v` on the array itself; false when numpy would raise. */
  method WriteMembers(ids: array<int>, members: seq<int>, v: int) returns (ok: bool)
    modifies ids
    ensures ok <==> WriteAll(old(ids[..]), members, v).Success?
    ensures ok ==> WriteAll(old(ids[..]), members, v) == Success(ids[..])
  {
    ghost var before := ids[..];
    var t := 0;
    while t < |members|
      invariant 0 <= t <= |members|
      invariant WriteAll(before, members[..t], v) == Success(ids[..])
    {
      assert members[..t + 1][..t] == members[..t];
      var q := NormIndex(members[t], ids.Length);
      if q.None? {
        WriteAllPrefixFailure(before, members, v, t + 1);
        return false;
      }
      ids[q.value] := v;
      t := t + 1;
    }
    assert members[..t] == members;
    ok := true;
  }

  /** One more step of the painting loop. */
  lemma PaintSnoc(il: IndexList, arr: seq<int>, order: seq<int>, j: nat)
    requires Valid(il)
    requires forall i :: 0 <= i < |order| ==> 0 <= order[i] < Count(il)
    requires j < |order|
    requires Paint(il, arr, order[..j]).Success?
    ensures Paint(il, arr, order[..j + 1])
         == var res := WriteAll(Paint(il, arr, order[..j]).value, Members(il, order[j]), il.uniqueObjNumbers[order[j]]);
            if res.Success? then Success(res.value) else Failure(IndexError)
  {
    assert order[..j + 1][..j] == order[..j];
  }

  /** A failed write for the j-th object makes the whole painting fail. */
  lemma PaintFailsAt(il: IndexList, arr: seq<int>, order: seq<int>, j: nat, w: seq<int>)
    requires Valid(il)
    requires forall i :: 0 <= i < |order| ==> 0 <= order[i] < Count(il)
    requires j < |order|
    requires Paint(il, arr, order[..j]) == Success(w)
    requires WriteAll(w, Members(il, order[j]), il.uniqueObjNumbers[order[j]]).Failure?
    ensures Paint(il, arr, order) == Failure(IndexError)
  {
    PaintSnoc(il, arr, order, j);
    PaintPrefixFailure(il, arr, order, j + 1);
  }

  lemma {:induction false} WriteAllPrefixFailure(arr: seq<int>, ids: seq<int>, v: int, t: nat)
    requires t <= |ids|
    requires WriteAll(arr, ids[..t], v).Failure?
    ensures WriteAll(arr, ids, v).Failure?
    decreases |ids| - t
  {
    if t < |ids| {
      assert ids[..t + 1][..t] == ids[..t];
      WriteAllPrefixFailure(arr, ids, v, t + 1);
    } else {
      assert ids[..t] == ids;
    }
  }

  lemma {:induction false} PaintPrefixFailure(il: IndexList, arr: seq<int>, order: seq<int>, j: nat)
    requires Valid(il)
    requires forall i :: 0 <= i < |order| ==> 0 <= order[i] < Count(il)
    requires j <= |order|
    requires Paint(il, arr, order[..j]).Failure?
    ensures Paint(il, arr, order).Failure?
    decreases |order| - j
  {
    if j < |order| {
      assert order[..j + 1][..j] == order[..j];
      PaintPrefixFailure(il, arr, order, j + 1);
    } else {
      assert order[..j] == order;
    }
  }

  // ---------------------------------------------------------------------
  // Properties of construction

  lemma {:induction false} DiffsMonotone(b: seq<nat>, i: nat, j: nat)
    requires DiffsNonNegative(b) && i <= j < |b|
    ensures b[i] <= b[j]
    decreases j - i
  {
    if i < j {
      DiffsMonotone(b, i + 1, j);
    }
  }

  /** Non-negative consecutive differences is the same as non-decreasing. */
  lemma DiffsNonNegativeIff(b: seq<nat>)
    ensures DiffsNonNegative(b) <==> NonDecreasing(b)
  {
    if DiffsNonNegative(b) {
      forall i, j | 0 <= i < j < |b| ensures b[i] <= b[j] {
        DiffsMonotone(b, i, j);
      }
    }
  }

  /** The constructor from parts succeeds exactly on valid, non-empty parts
      and then stores them unchanged; the only IndexError is for empty
      boundaries, every other rejection is an AssertionError. */
  lemma FromPartsSpec(p: seq<int>, u: seq<int>, b: seq<nat>)
    ensures FromParts(p, u, b).Success? <==> Valid(IndexList(p, u, b)) && |u| > 0
    ensures FromParts(p, u, b).Success? ==> FromParts(p, u, b).value == IndexList(p, u, b)
    ensures FromParts(p, u, b) == Failure(IndexError) <==> |u| == 0 && |b| == 0
    ensures FromParts(p, u, b).Failure? ==> FromParts(p, u, b).error in {IndexError, AssertionError}
  {
    UniqueLengthIffDistinct(u);
    DiffsNonNegativeIff(b);
  }

  /** The stable argsort splits around the group of the k-th distinct ID. */
  lemma ArgsortSplit(a: seq<int>, k: nat)
    requires k < |Unique(a)|
    ensures StableArgsort(a) == Grouped(a, Unique(a)[..k]) + Grouped(a, Unique(a)[k..])
    ensures Grouped(a, Unique(a)[k..]) == Positions(a, Unique(a)[k]) + Grouped(a, Unique(a)[k + 1..])
  {
    var u := Unique(a);
    assert u == u[..k] + u[k..];
    GroupedSplit(a, u[..k], u[k..]);
    assert u[k..][1..] == u[k + 1..];
  }

  /** Grouping by the IDs `xs`, all below `x`, then by the IDs `ys`, none
      below `x`, puts first the |Grouped(a, xs)| positions whose ID is
      below `x`, then the rest. */
  lemma GroupedPartition(a: seq<int>, xs: seq<int>, ys: seq<int>, lo: int, x: int, hi: int)
    requires forall m :: 0 <= m < |xs| ==> lo <= xs[m] < x
    requires forall m :: 0 <= m < |ys| ==> x <= ys[m] < hi
    ensures var p := Grouped(a, xs) + Grouped(a, ys);
      && (forall i :: 0 <= i < |p| ==> 0 <= p[i] < |a|)
      && (forall i :: 0 <= i < |Grouped(a, xs)| ==> a[p[i]] < x)
      && (forall i :: |Grouped(a, xs)| <= i < |p| ==> a[p[i]] >= x)
  {
    var l, h := Grouped(a, xs), Grouped(a, ys);
    GroupedValuesIn(a, xs, lo, x);
    GroupedValuesIn(a, ys, x, hi);
    forall i | |l| <= i < |l + h| ensures 0 <= (l + h)[i] < |a| && a[(l + h)[i]] >= x {
      assert (l + h)[i] == h[i - |l|];
    }
  }

  lemma SliceBounds(u: seq<int>, k: nat)
    requires StrictlyIncreasing(u) && k < |u|
    ensures forall m :: 0 <= m < |u[..k]| ==> u[0] <= u[..k][m] < u[k]
    ensures forall m :: 0 <= m < |u[k..]| ==> u[k] <= u[k..][m] < u[|u| - 1] + 1
  {
  }

  /** Boundary `k` of an IndexList built from a group array is the number of
      particles whose object ID is smaller than the k-th distinct ID. */
  lemma FromObjectIdsBoundary(a: seq<int>, k: nat)
    requires k < |Unique(a)|
    ensures FromObjectIds(a).boundaries[k] == |Grouped(a, Unique(a)[..k])|
  {
    var u := Unique(a);
    SliceBounds(u, k);
    GroupedPartition(a, u[..k], u[k..], u[0], u[k], u[|u| - 1] + 1);
    ArgsortSplit(a, k);
    var sorted := Gather(a, Grouped(a, u));
    SearchSortedPartition(sorted, u[k], |Grouped(a, u[..k])|);
  }

  lemma BoundaryMonotone(a: seq<int>, i: nat, j: nat)
    requires i < j < |Unique(a)|
    ensures FromObjectIds(a).boundaries[i] <= FromObjectIds(a).boundaries[j]
  {
    FromObjectIdsBoundary(a, i);
    FromObjectIdsBoundary(a, j);
    GroupedPrefixMonotone(a, Unique(a), i, j);
  }

  lemma GroupedPrefixMonotone(a: seq<int>, u: seq<int>, i: nat, j: nat)
    requires i <= j <= |u|
    ensures |Grouped(a, u[..i])| <= |Grouped(a, u[..j])|
  {
    assert u[..j] == u[..i] + u[i..j];
    GroupedSplit(a, u[..i], u[i..j]);
  }

  /** An IndexList built from a group array is valid and its object
      numbers ascend. */
  lemma FromObjectIdsValid(a: seq<int>)
    ensures Valid(FromObjectIds(a))
    ensures StrictlyIncreasing(FromObjectIds(a).uniqueObjNumbers)
  {
    var il := FromObjectIds(a);
    var u := Unique(a);
    forall i, j | 0 <= i < j < |u| ensures il.boundaries[i] <= il.boundaries[j] {
      BoundaryMonotone(a, i, j);
    }
    if |u| > 0 {
      FromObjectIdsBoundary(a, |u| - 1);
      ArgsortSplit(a, |u| - 1);
    }
  }

  lemma GroupedPrefixSnoc(a: seq<int>, u: seq<int>, k: nat)
    requires k < |u|
    ensures Grouped(a, u[..k + 1]) == Grouped(a, u[..k]) + Positions(a, u[k])
  {
    assert u[..k + 1] == u[..k] + [u[k]];
    GroupedSplit(a, u[..k], [u[k]]);
    assert [u[k]][1..] == [];
  }

  /** Where the k-th object's slice ends, in an IndexList built from a
      group array. */
  lemma FromObjectIdsEnd(a: seq<int>, k: nat)
    requires k < |Unique(a)|
    ensures Valid(FromObjectIds(a))
    ensures SliceEnd(FromObjectIds(a), k) == |Grouped(a, Unique(a)[..k])| + |Positions(a, Unique(a)[k])|
  {
    var u := Unique(a);
    FromObjectIdsValid(a);
    GroupedPrefixSnoc(a, u, k);
    if k + 1 < |u| {
      FromObjectIdsBoundary(a, k + 1);
    } else {
      assert u[..k + 1] == u;
    }
  }

  /** The particles of the k-th object of an IndexList built from a group
      array are exactly the positions holding its ID, in ascending order. */
  lemma FromObjectIdsMembers(a: seq<int>, k: nat)
    requires k < |Unique(a)|
    ensures Valid(FromObjectIds(a))
    ensures Members(FromObjectIds(a), k) == Positions(a, Unique(a)[k])
  {
    var u := Unique(a);
    FromObjectIdsEnd(a, k);
    FromObjectIdsBoundary(a, k);
    ArgsortSplit(a, k);
    SliceMiddle(Grouped(a, u[..k]), Positions(a, u[k]), Grouped(a, u[k + 1..]));
  }

  /** Lookup by object number, when the numbers ascend: success exactly for
      the numbers present, at their offset. */
  lemma ObjOffsetComplete(il: IndexList, id: int)
    requires Valid(il) && StrictlyIncreasing(il.uniqueObjNumbers)
    ensures ObjOffset(il, id).Success? <==> id in il.uniqueObjNumbers
  {
    var u := il.uniqueObjNumbers;
    if id in u {
      var k :| 0 <= k < |u| && u[k] == id;
      SearchSortedPartition(u, id, k);
    }
  }

  /** `get_index_list(id)` for the object at offset `k`: when it succeeds
      it is that object's slice of `particle_ids`, from its boundary to
      the next one (or to the end for the last object), and with
      ascending object numbers it always succeeds. */
  lemma GetIndexListSpec(il: IndexList, id: int, k: nat)
    requires Valid(il) && k < Count(il) && il.uniqueObjNumbers[k] == id
    ensures GetIndexList(il, id).Success? ==>
      GetIndexList(il, id).value
        == il.particleIds[il.boundaries[k]..if k == Count(il) - 1 then |il.particleIds| else il.boundaries[k + 1]]
    ensures StrictlyIncreasing(il.uniqueObjNumbers) ==> GetIndexList(il, id).Success?
  {
    if ObjOffset(il, id).Success? {
      var k' := ObjOffset(il, id).value;
      assert il.uniqueObjNumbers[k'] == il.uniqueObjNumbers[k];
      assert k' == k;
    }
    if StrictlyIncreasing(il.uniqueObjNumbers) {
      ObjOffsetComplete(il, id);
    }
  }

  /** `IndexList(object_id_per_particle=a).get_index_list(id)` is
      `np.where(a == id)[0]`, and a KeyError for an ID not in `a`. */
  lemma GetIndexListFromObjectIds(a: seq<int>, id: int)
    ensures Valid(FromObjectIds(a))
    ensures GetIndexList(FromObjectIds(a), id)
         == if id in a then Success(Positions(a, id)) else Failure(KeyError)
  {
    var il := FromObjectIds(a);
    FromObjectIdsValid(a);
    ObjOffsetComplete(il, id);
    if id in a {
      var k := ObjOffset(il, id).value;
      FromObjectIdsMembers(a, k);
    }
  }

  // ---------------------------------------------------------------------
  // Properties of the group array

  /** After `arr[ids] = v`: every addressed position holds `v`, every other
      position keeps its value; it fails exactly when an index is out of
      range. */
  lemma {:induction false} WriteAllSpec(arr: seq<int>, ids: seq<int>, v: int)
    ensures WriteAll(arr, ids, v).Success? <==> AllInRange(ids, |arr|)
    ensures WriteAll(arr, ids, v).Success? ==>
      forall q :: 0 <= q < |arr| ==>
        WriteAll(arr, ids, v).value[q] == if Hits(ids, q, |arr|) then v else arr[q]
  {
    if |ids| > 0 {
      var init := ids[..|ids| - 1];
      var last := ids[|ids| - 1];
      WriteAllSpec(arr, init, v);
      assert AllInRange(ids, |arr|) <==> AllInRange(init, |arr|) && NormIndex(last, |arr|).Some? by {
        if AllInRange(init, |arr|) && NormIndex(last, |arr|).Some? {
          forall t | 0 <= t < |ids| ensures NormIndex(ids[t], |arr|).Some? {
            if t < |ids| - 1 { assert ids[t] == init[t]; }
          }
        }
        if AllInRange(ids, |arr|) {
          forall t | 0 <= t < |init| ensures NormIndex(init[t], |arr|).Some? {
            assert init[t] == ids[t];
          }
        }
      }
      if WriteAll(arr, ids, v).Success? {
        forall q | 0 <= q < |arr|
          ensures Hits(ids, q, |arr|) <==> Hits(init, q, |arr|) || NormIndex(last, |arr|) == Some(q)
        {
          if Hits(ids, q, |arr|) {
            var t :| 0 <= t < |ids| && NormIndex(ids[t], |arr|) == Some(q);
            if t < |ids| - 1 { assert init[t] == ids[t]; }
          }
          if Hits(init, q, |arr|) {
            var t :| 0 <= t < |init| && NormIndex(init[t], |arr|) == Some(q);
            assert ids[t] == init[t];
          }
          if NormIndex(last, |arr|) == Some(q) {
            assert NormIndex(ids[|ids| - 1], |arr|) == Some(q);
          }
        }
      }
    }
  }

  /** The offset of the last true flag. */
  function LastTrue(f: seq<bool>): (r: Option<nat>)
    ensures r.None? <==> forall j :: 0 <= j < |f| ==> !f[j]
    ensures r.Some? ==> r.value < |f| && f[r.value] && forall j :: r.value < j < |f| ==> !f[j]
  {
    if |f| == 0 then None
    else if f[|f| - 1] then Some(|f| - 1)
    else LastTrue(f[..|f| - 1])
  }

  /** For each entry of `order`, whether that object addresses `q`. */
  function CoverFlags(il: IndexList, order: seq<int>, q: nat, n: nat): (f: seq<bool>)
    requires Valid(il)
    requires forall j :: 0 <= j < |order| ==> 0 <= order[j] < Count(il)
    ensures |f| == |order| && forall j :: 0 <= j < |order| ==> f[j] == Covers(il, order[j], q, n)
  {
    seq(|order|, j requires 0 <= j < |order| => Covers(il, order[j], q, n))
  }

  /** The offset in `order` of the last object that addresses position `q`:
      the one whose write survives. */
  function LastCover(il: IndexList, order: seq<int>, q: nat, n: nat): (r: Option<nat>)
    requires Valid(il)
    requires forall j :: 0 <= j < |order| ==> 0 <= order[j] < Count(il)
    ensures r.None? <==> forall j :: 0 <= j < |order| ==> !Covers(il, order[j], q, n)
    ensures r.Some? ==>
      && r.value < |order|
      && Covers(il, order[r.value], q, n)
      && forall j :: r.value < j < |order| ==> !Covers(il, order[j], q, n)
  {
    LastTrue(CoverFlags(il, order, q, n))
  }

  /** Dropping a last object that does not address `q` changes nothing. */
  lemma LastCoverSnoc(il: IndexList, order: seq<int>, q: nat, n: nat)
    requires Valid(il)
    requires forall j :: 0 <= j < |order| ==> 0 <= order[j] < Count(il)
    requires |order| > 0 && !Covers(il, order[|order| - 1], q, n)
    ensures LastCover(il, order, q, n) == LastCover(il, order[..|order| - 1], q, n)
  {
    var f := CoverFlags(il, order, q, n);
    assert f[..|f| - 1] == CoverFlags(il, order[..|order| - 1], q, n);
  }

  /** Object `k` has a particle index addressing position `q`. */
  predicate Covers(il: IndexList, k: nat, q: nat, n: nat)
    requires Valid(il) && k < Count(il)
  {
    Hits(Members(il, k), q, n)
  }

  /** What position `q` holds after painting `order` over `arr`. */
  function PaintedValue(il: IndexList, arr: seq<int>, order: seq<int>, q: nat): int
    requires Valid(il) && q < |arr|
    requires forall j :: 0 <= j < |order| ==> 0 <= order[j] < Count(il)
  {
    match LastCover(il, order, q, |arr|)
    case None => arr[q]
    case Some(j) => il.uniqueObjNumbers[order[j]]
  }

  /** Painting fails exactly when one of the painted objects has an
      out-of-range particle index; otherwise each position holds the ID of
      the last object in `order` that addresses it, or its old value. */
  lemma {:induction false} PaintSpec(il: IndexList, arr: seq<int>, order: seq<int>)
    requires Valid(il)
    requires forall j :: 0 <= j < |order| ==> 0 <= order[j] < Count(il)
    ensures Paint(il, arr, order).Success? <==>
      forall j :: 0 <= j < |order| ==> AllInRange(Members(il, order[j]), |arr|)
    ensures Paint(il, arr, order).Success? ==>
      forall q :: 0 <= q < |arr| ==> Paint(il, arr, order).value[q] == PaintedValue(il, arr, order, q)
  {
    if |order| > 0 {
      var init := order[..|order| - 1];
      var k := order[|order| - 1];
      assert forall j :: 0 <= j < |init| ==> init[j] == order[j];
      PaintSpec(il, arr, init);
      if Paint(il, arr, init).Success? {
        var w := Paint(il, arr, init).value;
        WriteAllSpec(w, Members(il, k), il.uniqueObjNumbers[k]);
        if Paint(il, arr, order).Success? {
          forall q | 0 <= q < |arr|
            ensures Paint(il, arr, order).value[q] == PaintedValue(il, arr, order, q)
          {
            if !Covers(il, k, q, |arr|) {
              LastCoverSnoc(il, order, q, |arr|);
            }
          }
        }
      }
    }
  }

  /** Object `k` is at least as preferred as object `k2` for a particle they
      share: shorter objects win, and between equal lengths the later
      offset wins (the stable order paints it last). */
  predicate Beats(il: IndexList, k: nat, k2: nat)
    requires Valid(il) && k < Count(il) && k2 < Count(il)
  {
    var len := Lengths(il);
    len[k] < len[k2] || (len[k] == len[k2] && k2 <= k)
  }

  /** `get_object_id_per_particle` fails exactly when some object lists a
      particle index outside the simulation. */
  lemma GroupArrayFailure(il: IndexList, n: nat, fill: int)
    requires Valid(il)
    ensures GroupArray(il, n, fill).Failure? <==>
      exists k :: 0 <= k < Count(il) && !AllInRange(Members(il, k), n)
    ensures GroupArray(il, n, fill).Failure? ==> GroupArray(il, n, fill).error == IndexError
  {
    var order := Ordering(il);
    var arr := Filled(n, fill);
    PaintSpec(il, arr, order);
    OrderingSpec(il);
    if exists k :: 0 <= k < Count(il) && !AllInRange(Members(il, k), n) {
      var k :| 0 <= k < Count(il) && !AllInRange(Members(il, k), n);
      assert k in order;
      var j :| 0 <= j < |order| && order[j] == k;
      assert !AllInRange(Members(il, order[j]), n);
    }
  }

  lemma NoCoverAt(il: IndexList, q: nat, n: nat, k: nat)
    requires Valid(il) && k < Count(il)
    requires LastCover(il, Ordering(il), q, n).None?
    ensures !Covers(il, k, q, n)
  {
    OrderingSpec(il);
    assert k in Ordering(il);
  }

  /** In a longest-first stable order, a later entry is no longer than an
      earlier one, and no longer with a larger offset when equally long. */
  lemma StableOrderLater(len: seq<int>, order: seq<int>, j2: nat, j: nat)
    requires j2 <= j < |order|
    requires forall i :: 0 <= i < |order| ==> 0 <= order[i] < |len|
    requires forall i, i' :: 0 <= i < i' < |order| ==>
      len[order[i']] < len[order[i]] || (len[order[i']] == len[order[i]] && order[i] < order[i'])
    ensures len[order[j]] < len[order[j2]] || (len[order[j]] == len[order[j2]] && order[j2] <= order[j])
  {
  }

  lemma BeatsAt(il: IndexList, q: nat, n: nat, k2: nat)
    requires Valid(il) && k2 < Count(il) && Covers(il, k2, q, n)
    requires LastCover(il, Ordering(il), q, n).Some?
    ensures Beats(il, Ordering(il)[LastCover(il, Ordering(il), q, n).value], k2)
  {
    var order := Ordering(il);
    var j := LastCover(il, order, q, n).value;
    OrderingSpec(il);
    assert k2 in order;
    var j2 :| 0 <= j2 < |order| && order[j2] == k2;
    assert j2 <= j;
    StableOrderLater(Lengths(il), order, j2, j);
  }

  /** Under the longest-first ordering, the last object covering `q` beats
      every other object covering `q`. */
  lemma LastCoverBeats(il: IndexList, q: nat, n: nat)
    requires Valid(il)
    ensures LastCover(il, Ordering(il), q, n).None? ==>
      forall k :: 0 <= k < Count(il) ==> !Covers(il, k, q, n)
    ensures LastCover(il, Ordering(il), q, n).Some? ==>
      var k := Ordering(il)[LastCover(il, Ordering(il), q, n).value];
      forall k2 :: 0 <= k2 < Count(il) && Covers(il, k2, q, n) ==> Beats(il, k, k2)
  {
    if LastCover(il, Ordering(il), q, n).None? {
      forall k | 0 <= k < Count(il) ensures !Covers(il, k, q, n) {
        NoCoverAt(il, q, n, k);
      }
    } else {
      forall k2 | 0 <= k2 < Count(il) && Covers(il, k2, q, n)
        ensures Beats(il, Ordering(il)[LastCover(il, Ordering(il), q, n).value], k2)
      {
        BeatsAt(il, q, n, k2);
      }
    }
  }

  /** Each particle of the group array holds the ID of the shortest object
      that contains it (ties to the later object), or `fill_value` when no
      object contains it. */
  lemma GroupArrayWinner(il: IndexList, n: nat, fill: int, q: nat)
    requires Valid(il) && q < n
    requires GroupArray(il, n, fill).Success?
    ensures |GroupArray(il, n, fill).value| == n
    ensures (forall k :: 0 <= k < Count(il) ==> !Covers(il, k, q, n)) ==>
      GroupArray(il, n, fill).value[q] == fill
    ensures (exists k :: 0 <= k < Count(il) && Covers(il, k, q, n)) ==>
      exists k :: 0 <= k < Count(il) && Covers(il, k, q, n)
        && GroupArray(il, n, fill).value[q] == il.uniqueObjNumbers[k]
        && forall k2 :: 0 <= k2 < Count(il) && Covers(il, k2, q, n) ==> Beats(il, k, k2)
  {
    var order := Ordering(il);
    PaintSpec(il, Filled(n, fill), order);
    LastCoverBeats(il, q, n);
  }

  lemma HitsPositions(a: seq<int>, v: int, q: nat)
    requires q < |a|
    ensures Hits(Positions(a, v), q, |a|) <==> a[q] == v
    ensures AllInRange(Positions(a, v), |a|)
  {
    var p := Positions(a, v);
    if a[q] == v {
      var t :| 0 <= t < |p| && p[t] == q;
      assert NormIndex(p[t], |a|) == Some(q);
    }
  }

  lemma RoundTripSucceeds(a: seq<int>, fill: int)
    ensures Valid(FromObjectIds(a))
    ensures GroupArray(FromObjectIds(a), |a|, fill).Success?
  {
    var il := FromObjectIds(a);
    FromObjectIdsValid(a);
    forall k | 0 <= k < Count(il) ensures AllInRange(Members(il, k), |a|) {
      FromObjectIdsMembers(a, k);
      if |a| > 0 { HitsPositions(a, il.uniqueObjNumbers[k], 0); }
    }
    GroupArrayFailure(il, |a|, fill);
  }

  /** In an IndexList built from `a`, object `k` covers exactly the
      positions where `a` holds its ID. */
  lemma CoversFromObjectIds(a: seq<int>, k: nat, q: nat)
    requires k < |Unique(a)| && q < |a|
    ensures Valid(FromObjectIds(a))
    ensures Covers(FromObjectIds(a), k, q, |a|) <==> a[q] == Unique(a)[k]
  {
    FromObjectIdsMembers(a, k);
    HitsPositions(a, Unique(a)[k], q);
  }

  lemma RoundTripAt(a: seq<int>, fill: int, q: nat)
    requires q < |a|
    ensures Valid(FromObjectIds(a))
    ensures GroupArray(FromObjectIds(a), |a|, fill).Success?
    ensures GroupArray(FromObjectIds(a), |a|, fill).value[q] == a[q]
  {
    var il := FromObjectIds(a);
    var u := il.uniqueObjNumbers;
    RoundTripSucceeds(a, fill);
    FromObjectIdsValid(a);
    var w := GroupArray(il, |a|, fill).value;
    assert a[q] in u;
    var k :| 0 <= k < |u| && u[k] == a[q];
    CoversFromObjectIds(a, k, q);
    GroupArrayWinner(il, |a|, fill, q);
    var k1 :| 0 <= k1 < Count(il) && Covers(il, k1, q, |a|) && w[q] == u[k1];
    CoversFromObjectIds(a, k1, q);
  }

  /** Round trip: the group array of the IndexList built from a group
      array `a` is `a` itself. */
  lemma GroupArrayRoundTrip(a: seq<int>, fill: int)
    ensures Valid(FromObjectIds(a))
    ensures GroupArray(FromObjectIds(a), |a|, fill) == Success(a)
  {
    RoundTripSucceeds(a, fill);
    var w := GroupArray(FromObjectIds(a), |a|, fill).value;
    forall q | 0 <= q < |a| ensures w[q] == a[q] {
      RoundTripAt(a, fill, q);
    }
    assert w == a;
  }
}
