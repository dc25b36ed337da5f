/** `HaloCatalogue` and `GrpCatalogue` from pynbody/halo/__init__.py: a
    halo catalogue with two caches, one optional IndexList for all halos
    and a memo of halo objects keyed by halo ID. */
module Catalogues {
  import opened Wrappers
  import opened Seqs
  import opened IndexLists

  // ---------------------------------------------------------------------
  // The hooks a concrete catalogue provides

  /** Which catalogue this is.  `AllAtOnce(r)` is a subclass whose
      `_get_index_list_all_halos` returns (or raises) `r` and which keeps
      the default one-halo route; the base class itself is
      `BaseCatalogue`.  `Grp(arr)` is a `GrpCatalogue` over the
      simulation-wide integer array `arr`. */
  datatype Format =
    | AllAtOnce(allHalos: Result<IndexList>)
    | Grp(groupArray: seq<int>)

  /** `HaloCatalogue._get_index_list_all_halos` raises NotImplementedError. */
  const BaseCatalogue: Format := AllAtOnce(Failure(NotImplementedError))

  /** Every IndexList a subclass hands back was built by the IndexList
      constructor, so it satisfies that constructor's checks. */
  predicate FormatValid(f: Format) {
    f.AllAtOnce? && f.allHalos.Success? ==> Valid(f.allHalos.value)
  }

  /** `_get_index_list_all_halos` */
  function AllHalos(f: Format): (r: Result<IndexList>)
    requires FormatValid(f)
    ensures r.Success? ==> Valid(r.value)
  {
    match f
    case AllAtOnce(r) => r
    case Grp(arr) =>
      FromObjectIdsValid(arr);
      Success(FromObjectIds(arr))
  }

  /** The particles of halo `i` as a fresh load would give them: what
      `_get_index_list_one_halo(i)` returns, whatever is cached. */
  function HaloParticles(f: Format, i: int): Result<seq<int>>
    requires FormatValid(f)
  {
    match f
    case Grp(arr) => Success(Positions(arr, i))
    case AllAtOnce(_) =>
      match AllHalos(f)
      case Failure(e) => Failure(e)
      case Success(il) => GetIndexList(il, i)
  }

  // ---------------------------------------------------------------------
  // The caching shell as functions of the cache

  /** Python truthiness of `_cached_index_lists`: None is falsy, and so
      is an IndexList whose `__len__` is zero. */
  predicate Truthy(c: Option<IndexList>) {
    c.Some? && Count(c.value) > 0
  }

  /** A cached IndexList is the one the hook returns. */
  predicate Consistent(f: Format, c: Option<IndexList>) {
    FormatValid(f) && (c.Some? ==> AllHalos(f) == Success(c.value))
  }

  /** What a call returns or raises, the cache it leaves behind, and how
      many times it invoked `_get_index_list_all_halos`. */
  datatype Call<T> = Call(result: Result<T>, cache: Option<IndexList>, hookCalls: nat)

  /** `load_all` */
  function LoadAllCall(f: Format, c: Option<IndexList>): (k: Call<()>)
    requires FormatValid(f)
    ensures k.result.Success? ==> k.cache.Some?
  {
    if Truthy(c) then Call(Success(()), c, 0)
    else
      match AllHalos(f)
      case Success(il) => Call(Success(()), Some(il), 1)
      case Failure(e) => Call(Failure(e), c, 1)
  }

  /** `_get_halo_ids` (default implementation, which `GrpCatalogue` keeps) */
  function HaloIdsCall(f: Format, c: Option<IndexList>): Call<seq<int>>
    requires FormatValid(f)
  {
    var k := LoadAllCall(f, c);
    match k.result
    case Failure(e) => Call(Failure(e), k.cache, k.hookCalls)
    case Success(_) => Call(Success(k.cache.value.uniqueObjNumbers), k.cache, k.hookCalls)
  }

  /** `_get_num_halos`, that is `len(catalogue)`.  Unlike `load_all` this
      tests the cache with `is not None`. */
  function NumHalosCall(f: Format, c: Option<IndexList>): Call<nat>
    requires FormatValid(f)
  {
    if c.Some? then Call(Success(Count(c.value)), c, 0)
    else
      var k := HaloIdsCall(f, c);
      match k.result
      case Failure(e) => Call(Failure(e), k.cache, k.hookCalls)
      case Success(ids) => Call(Success(|ids|), k.cache, k.hookCalls)
  }

  /** `_get_index_list_one_halo(i)`: `GrpCatalogue` reads its array
      directly; the default loads all halos and looks `i` up. */
  function OneHaloCall(f: Format, c: Option<IndexList>, i: int): Call<seq<int>>
    requires Consistent(f, c)
  {
    match f
    case Grp(arr) => Call(Success(Positions(arr, i)), c, 0)
    case AllAtOnce(_) =>
      var k := LoadAllCall(f, c);
      match k.result
      case Failure(e) => Call(Failure(e), k.cache, k.hookCalls)
      case Success(_) =>
        assert k.cache == c || k.cache == Some(AllHalos(f).value);
        Call(GetIndexList(k.cache.value, i), k.cache, k.hookCalls)
  }

  /** `_get_index_list_via_most_efficient_route(i)` */
  function RouteCall(f: Format, c: Option<IndexList>, i: int): Call<seq<int>>
    requires Consistent(f, c)
  {
    if Truthy(c) then Call(GetIndexList(c.value, i), c, 0)
    else OneHaloCall(f, c, i)
  }

  /** A contiguous family slice `start .. stop` of the simulation. */
  datatype Family = Family(start: nat, stop: nat)

  /** `get_group_array()` (and `GrpCatalogue.get_group_array(family)`). */
  function GroupArrayCall(f: Format, c: Option<IndexList>, family: Option<Family>, simLength: nat): Call<seq<int>>
    requires Consistent(f, c)
    requires f.Grp? ==> |f.groupArray| == simLength
    requires family.Some? ==> family.value.start <= family.value.stop <= simLength
  {
    match f
    case Grp(arr) =>
      if family.None? then Call(Success(arr), c, 0)
      else Call(Success(arr[family.value.start..family.value.stop]), c, 0)
    case AllAtOnce(_) =>
      if family.Some? then Call(Failure(TypeError), c, 0)   // unexpected keyword argument
      else
        var k := LoadAllCall(f, c);
        match k.result
        case Failure(e) => Call(Failure(e), k.cache, k.hookCalls)
        case Success(_) =>
          assert k.cache == c || k.cache == Some(AllHalos(f).value);
          Call(GroupArray(k.cache.value, simLength, -1), k.cache, k.hookCalls)
  }

  // ---------------------------------------------------------------------
  // Properties of the caching shell

  /** `load_all` keeps the cache consistent; it succeeds exactly when the
      cache was truthy or the hook succeeds, and then the cache holds the
      hook's IndexList; a failing hook leaves the cache as it was. */
  lemma LoadAllSpec(f: Format, c: Option<IndexList>)
    requires Consistent(f, c)
    ensures var k := LoadAllCall(f, c);
      && Consistent(f, k.cache)
      && (k.result.Success? <==> Truthy(c) || AllHalos(f).Success?)
      && (k.result.Success? ==> k.cache == Some(AllHalos(f).value))
      && (k.result.Failure? ==> k.cache == c && k.result.error == AllHalos(f).error)
      && (k.hookCalls == if Truthy(c) then 0 else 1)
  {
  }

  /** Idempotence: once `load_all` has left a truthy cache, calling it
      again changes nothing and does not invoke the hook. */
  lemma LoadAllIdempotent(f: Format, c: Option<IndexList>)
    requires Consistent(f, c)
    requires LoadAllCall(f, c).result.Success?
    ensures var k := LoadAllCall(f, c);
      Truthy(k.cache) ==> LoadAllCall(f, k.cache) == Call(Success(()), k.cache, 0)
  {
  }

  /** The truthiness test: a catalogue with no halos at all caches an empty
      IndexList, which is falsy, so every `load_all` calls the hook again. */
  lemma LoadAllRepeatsForEmpty(f: Format, il: IndexList)
    requires FormatValid(f) && AllHalos(f) == Success(il) && Count(il) == 0
    ensures LoadAllCall(f, Some(il)) == Call(Success(()), Some(il), 1)
    ensures NumHalosCall(f, Some(il)) == Call(Success(0), Some(il), 0)
  {
  }

  /** `len(catalogue)` agrees with the list of halo IDs, and neither
      invokes the hook when a (possibly empty) IndexList is cached for
      `len`, or a truthy one for the IDs. */
  lemma NumHalosMatchesIds(f: Format, c: Option<IndexList>)
    requires Consistent(f, c)
    ensures NumHalosCall(f, c).result.Success? <==> HaloIdsCall(f, c).result.Success?
    ensures NumHalosCall(f, c).result.Success? ==>
      NumHalosCall(f, c).result.value == |HaloIdsCall(f, c).result.value|
    ensures c.Some? ==> NumHalosCall(f, c).hookCalls == 0
  {
  }

  /** A `GrpCatalogue` has one halo per distinct value of its array, in
      ascending order; the `ignore` value is counted like any other. */
  lemma GrpHaloIds(arr: seq<int>, c: Option<IndexList>)
    requires Consistent(Grp(arr), c)
    ensures HaloIdsCall(Grp(arr), c).result == Success(Unique(arr))
    ensures forall k :: 0 <= k < |Unique(arr)| ==> Unique(arr)[k] in arr
    ensures forall x :: x in arr ==> x in Unique(arr)
    ensures StrictlyIncreasing(Unique(arr))
  {
  }

  /** Whatever is cached, the one-halo route gives the particles a fresh
      load would give, and keeps the cache consistent. */
  lemma OneHaloSpec(f: Format, c: Option<IndexList>, i: int)
    requires Consistent(f, c)
    ensures OneHaloCall(f, c, i).result == HaloParticles(f, i)
    ensures Consistent(f, OneHaloCall(f, c, i).cache)
  {
  }

  /** When the loaded halo IDs ascend (always so for a `GrpCatalogue`,
      whose IDs come from `np.unique`), every one of them resolves to its
      particles, so iterating the catalogue cannot fail after the load. */
  lemma LoadedIdsResolve(f: Format, c: Option<IndexList>)
    requires Consistent(f, c)
    requires HaloIdsCall(f, c).result.Success?
    ensures f.Grp? ==> StrictlyIncreasing(HaloIdsCall(f, c).result.value)
    ensures StrictlyIncreasing(HaloIdsCall(f, c).result.value) ==>
      forall k :: 0 <= k < |HaloIdsCall(f, c).result.value| ==> HaloParticles(f, HaloIdsCall(f, c).result.value[k]).Success?
  {
    var ids := HaloIdsCall(f, c).result.value;
    var il := AllHalos(f).value;
    assert ids == il.uniqueObjNumbers;
    if f.Grp? {
      FromObjectIdsValid(f.groupArray);
    }
    if StrictlyIncreasing(ids) {
      forall k | 0 <= k < |ids| ensures HaloParticles(f, ids[k]).Success? {
        if f.AllAtOnce? {
          GetIndexListSpec(il, ids[k], k);
        }
      }
    }
  }

  /** For a catalogue with the default one-halo route, the most efficient
      route is just a shortcut: it gives what the one-halo route gives. */
  lemma RouteAgreesAllAtOnce(f: Format, c: Option<IndexList>, i: int)
    requires Consistent(f, c) && f.AllAtOnce?
    ensures RouteCall(f, c, i).result == HaloParticles(f, i)
    ensures Consistent(f, RouteCall(f, c, i).cache)
  {
  }

  /** `GrpCatalogue`: `np.where(arr == i)[0]` is
      `IndexList(object_id_per_particle=arr).get_index_list(i)` for every
      ID present; for an absent ID the direct route gives no particles
      where the cached route raises KeyError. */
  lemma GrpRoutesAgree(arr: seq<int>, c: Option<IndexList>, i: int)
    requires Consistent(Grp(arr), c)
    ensures Valid(FromObjectIds(arr))
    ensures i in arr ==> GetIndexList(FromObjectIds(arr), i) == OneHaloCall(Grp(arr), c, i).result
    ensures i !in arr ==> OneHaloCall(Grp(arr), c, i).result == Success([])
    ensures i !in arr ==> GetIndexList(FromObjectIds(arr), i) == Failure(KeyError)
    ensures RouteCall(Grp(arr), c, i).result ==
      if Truthy(c) && i !in arr then Failure(KeyError) else Success(Positions(arr, i))
  {
    GetIndexListFromObjectIds(arr, i);
    if i !in arr {
      PositionsAbsent(arr, i);
    }
  }

  /** `GrpCatalogue.get_group_array()` returns its array, which is what the
      default implementation computes from the catalogue's IndexList. */
  lemma GrpGroupArrayAgrees(arr: seq<int>, c: Option<IndexList>)
    requires Consistent(Grp(arr), c)
    ensures Valid(FromObjectIds(arr))
    ensures GroupArrayCall(Grp(arr), c, None, |arr|).result == Success(arr)
    ensures GroupArray(FromObjectIds(arr), |arr|, -1) == Success(arr)
  {
    GroupArrayRoundTrip(arr, -1);
  }

  /** The default `get_group_array()` is the group array of the hook's
      IndexList with fill value -1, or the hook's exception. */
  lemma DefaultGroupArray(f: Format, c: Option<IndexList>, n: nat)
    requires Consistent(f, c) && f.AllAtOnce?
    ensures GroupArrayCall(f, c, None, n).result ==
      match AllHalos(f)
      case Failure(e) => Failure(e)
      case Success(il) => GroupArray(il, n, -1)
  {
  }

  // ---------------------------------------------------------------------
  // Slices: range(*item.indices(len(self)))

  /** One bound of `slice.indices(n)`: the default when absent, otherwise
      counted from the end when negative, then clamped to
      `lower .. upper`. */
  function SliceBound(x: Option<int>, n: nat, lower: int, upper: int, default: int): int {
    match x
    case None => default
    case Some(v) =>
      var w := if v < 0 then v + n else v;
      if w < lower then lower else if w > upper then upper else w
  }

  /** `range(start, stop, step)` */
  function Range(start: int, stop: int, step: int): (r: seq<int>)
    requires step != 0
    decreases if step > 0 then stop - start else start - stop
  {
    if step > 0 then (if start < stop then [start] + Range(start + step, stop, step) else [])
    else (if start > stop then [start] + Range(start + step, stop, step) else [])
  }

  /** `range(*slice(start, stop, step).indices(n))`; a zero step is a
      ValueError. */
  function SliceIndices(start: Option<int>, stop: Option<int>, step: Option<int>, n: nat): Result<seq<int>> {
    var st := if step.None? then 1 else step.value;
    if st == 0 then Failure(ValueError)
    else
      var lower := if st > 0 then 0 else -1;
      var upper := if st > 0 then n as int else n - 1;
      var s := SliceBound(start, n, lower, upper, if st < 0 then upper else lower);
      var e := SliceBound(stop, n, lower, upper, if st < 0 then lower else upper);
      Success(Range(s, e, st))
  }

  lemma {:induction false} RangeUp(start: int, stop: int, step: int)
    requires step > 0
    ensures forall k :: 0 <= k < |Range(start, stop, step)| ==>
      start <= Range(start, stop, step)[k] < stop && Range(start, stop, step)[k] == start + k * step
    decreases stop - start
  {
    if start < stop {
      RangeUp(start + step, stop, step);
    }
  }

  lemma {:induction false} RangeDown(start: int, stop: int, step: int)
    requires step < 0
    ensures forall k :: 0 <= k < |Range(start, stop, step)| ==>
      stop < Range(start, stop, step)[k] <= start && Range(start, stop, step)[k] == start + k * step
    decreases start - stop
  {
    if start > stop {
      RangeDown(start + step, stop, step);
    }
  }

  /** The range with step 1 from `start` to `stop` is every integer in
      between. */
  lemma {:induction false} RangeUnit(start: int, stop: int)
    requires start <= stop
    ensures Range(start, stop, 1) == seq(stop - start, k requires 0 <= k < stop - start => start + k)
    decreases stop - start
  {
    if start < stop {
      RangeUnit(start + 1, stop);
    }
  }

  /** Slicing a catalogue of `n` halos yields positions `0 .. n-1` only,
      each once, in the order the step gives; a zero step is the only
      error. */
  lemma SliceIndicesSpec(start: Option<int>, stop: Option<int>, step: Option<int>, n: nat)
    ensures SliceIndices(start, stop, step, n).Failure? <==> step == Some(0)
    ensures SliceIndices(start, stop, step, n).Failure? ==> SliceIndices(start, stop, step, n).error == ValueError
    ensures var r := SliceIndices(start, stop, step, n);
      r.Success? ==> forall k :: 0 <= k < |r.value| ==> 0 <= r.value[k] < n
    ensures var r := SliceIndices(start, stop, step, n);
      r.Success? && step != Some(0) ==> forall k :: 0 <= k < |r.value| ==> r.value[k] == r.value[0] + k * (if step.None? then 1 else step.value)
  {
    var st := if step.None? then 1 else step.value;
    if st > 0 {
      var s := SliceBound(start, n, 0, n, 0);
      var e := SliceBound(stop, n, 0, n, n);
      RangeUp(s, e, st);
    } else if st < 0 {
      var s := SliceBound(start, n, -1, n - 1, n - 1);
      var e := SliceBound(stop, n, -1, n - 1, -1);
      RangeDown(s, e, st);
    }
  }

  /** `catalogue[:]` visits the positions 0, 1, ..., n-1: the positions
      are passed to `_get_halo_cached` as halo IDs, whatever IDs the
      catalogue actually uses. */
  lemma SliceAll(n: nat)
    ensures SliceIndices(None, None, None, n) == Success(Iota(n))
    ensures SliceIndices(None, None, Some(-1), n).Success?
    ensures var r := SliceIndices(None, None, Some(-1), n).value;
      |r| == n && forall k :: 0 <= k < n ==> r[k] == n - 1 - k
  {
    RangeUnit(0, n);
    assert Range(0, n, 1) == Iota(n);
    RangeDown(n - 1, -1, -1);
    RangeLengthDown(n - 1, -1);
  }

  lemma {:induction false} RangeLengthDown(start: int, stop: int)
    requires stop <= start
    ensures |Range(start, stop, -1)| == start - stop
    decreases start - stop
  {
    if start > stop {
      RangeLengthDown(start - 1, stop);
    }
  }

  // ---------------------------------------------------------------------
  // _init_iord_to_fpos

  /** The largest value of a non-empty sequence (`arr.max()`). */
  function Max(s: seq<int>): (m: int)
    requires |s| > 0
    ensures m in s && forall k :: 0 <= k < |s| ==> s[k] <= m
  {
    if |s| == 1 then s[0]
    else
      var m := Max(s[..|s| - 1]);
      assert forall k :: 0 <= k < |s| - 1 ==> s[..|s| - 1][k] == s[k];
      if s[|s| - 1] > m then s[|s| - 1] else m
  }

  /** `table[iord] = np.arange(len(iord))`: entry `iord[j]` is set to `j`,
      later positions overwriting earlier ones; `None` marks an entry of
      `np.empty` that is never written. */
  function Scatter(t: seq<Option<nat>>, iord: seq<int>): (r: Result<seq<Option<nat>>>)
    ensures r.Success? ==> |r.value| == |t|
    ensures r.Failure? ==> r.error == IndexError
  {
    if |iord| == 0 then Success(t)
    else
      match Scatter(t, iord[..|iord| - 1])
      case Failure(e) => Failure(e)
      case Success(w) =>
        match NormIndex(iord[|iord| - 1], |t|)
        case None => Failure(IndexError)
        case Some(q) => Success(w[q := Some(|iord| - 1)])
  }

  /** `np.empty(iord.max() + 1)`, before anything is written into it: a
      ValueError for an empty `iord` (no maximum) or a negative size. */
  function EmptyTable(iord: seq<int>): (r: Result<seq<Option<nat>>>)
    ensures r.Success? <==> |iord| > 0 && Max(iord) + 1 >= 0
    ensures r.Success? ==> |r.value| == Max(iord) + 1 && forall k :: 0 <= k < |r.value| ==> r.value[k].None?
    ensures r.Failure? ==> r.error == ValueError
  {
    if |iord| == 0 then Failure(ValueError)
    else if Max(iord) + 1 < 0 then Failure(ValueError)
    else Success(seq(Max(iord) + 1, _ => None))
  }

  /** The table once `Scatter` has filled it. */
  function IordTable(iord: seq<int>): Result<seq<Option<nat>>> {
    match EmptyTable(iord)
    case Failure(e) => Failure(e)
    case Success(t) => Scatter(t, iord)
  }

  /** The scatter raises exactly when some ID is outside the range numpy
      accepts for the table, negative IDs counting from its end. */
  lemma {:induction false} ScatterFails(t: seq<Option<nat>>, iord: seq<int>)
    ensures Scatter(t, iord).Failure? <==> exists j :: 0 <= j < |iord| && NormIndex(iord[j], |t|).None?
  {
    if |iord| > 0 {
      var init := iord[..|iord| - 1];
      ScatterFails(t, init);
      if Scatter(t, init).Failure? {
        var j :| 0 <= j < |init| && NormIndex(init[j], |t|).None?;
        assert iord[j] == init[j];
      } else if NormIndex(iord[|iord| - 1], |t|).Some? {
        forall j | 0 <= j < |iord| ensures NormIndex(iord[j], |t|).Some? {
          if j < |init| { assert iord[j] == init[j]; }
        }
      }
    }
  }

  /** The map from particle ID to file position, once initialised:
      `OneToOne` when the simulation has no `iord` array. */
  datatype FposMap = OneToOne | Table(entries: seq<Option<nat>>)

  /** `_iord_to_fpos[i]`: a value, an IndexError, or `None` for an entry
      that holds whatever `np.empty` left there. */
  function Fpos(m: FposMap, i: int): Result<Option<int>> {
    match m
    case OneToOne => Success(Some(i))
    case Table(t) =>
      match NormIndex(i, |t|)
      case None => Failure(IndexError)
      case Some(q) => Success(if t[q].Some? then Some(t[q].value as int) else None)
  }

  /** With non-negative IDs, the last position holding each ID wins and
      IDs that occur nowhere are never written. */
  lemma {:induction false} ScatterSpec(t: seq<Option<nat>>, iord: seq<int>)
    requires forall j :: 0 <= j < |iord| ==> 0 <= iord[j] < |t|
    ensures Scatter(t, iord).Success?
    ensures var r := Scatter(t, iord).value;
      forall x :: 0 <= x < |t| ==>
        && (x !in iord ==> r[x] == t[x])
        && (x in iord ==> r[x].Some? && r[x].value < |iord| && iord[r[x].value] == x
                           && forall j :: r[x].value < j < |iord| ==> iord[j] != x)
  {
    if |iord| > 0 {
      var init := iord[..|iord| - 1];
      assert forall j :: 0 <= j < |init| ==> init[j] == iord[j];
      ScatterSpec(t, init);
      var r := Scatter(t, iord).value;
      var w := Scatter(t, init).value;
      forall x | 0 <= x < |t|
        ensures x !in iord ==> r[x] == t[x]
        ensures x in iord ==> r[x].Some? && r[x].value < |iord| && iord[r[x].value] == x
                              && forall j :: r[x].value < j < |iord| ==> iord[j] != x
      {
        if x != iord[|iord| - 1] {
          assert r[x] == w[x];
          if x in iord {
            var j :| 0 <= j < |iord| && iord[j] == x;
            assert init[j] == x;
          } else {
            assert x !in init;
          }
        }
      }
    }
  }

  /** When the simulation's IDs are distinct and non-negative, the table
      inverts `iord`: ID `iord[j]` maps to file position `j`. */
  lemma IordTableInverts(iord: seq<int>)
    requires |iord| > 0
    requires Distinct(iord) && forall j :: 0 <= j < |iord| ==> iord[j] >= 0
    ensures IordTable(iord).Success?
    ensures forall j :: 0 <= j < |iord| ==> Fpos(Table(IordTable(iord).value), iord[j]) == Success(Some(j))
  {
    var m := Max(iord);
    var t: seq<Option<nat>> := seq(m + 1, _ => None);
    ScatterSpec(t, iord);
    var r := IordTable(iord).value;
    forall j | 0 <= j < |iord| ensures Fpos(Table(r), iord[j]) == Success(Some(j)) {
      var x := iord[j];
      assert x in iord;
      var w := r[x].value;
      assert iord[w] == x;
    }
  }

  // ---------------------------------------------------------------------
  // The catalogue object

  /** A halo as the catalogue hands it out: its ID and its particles
      (the materialised sub-snapshot is not modelled). */
  class Halo {
    const haloId: int
    const particles: seq<int>

    constructor (haloId: int, particles: seq<int>)
      ensures this.haloId == haloId && this.particles == particles
    {
      this.haloId := haloId;
      this.particles := particles;
    }
  }

  class HaloCatalogue {
    const format: Format
    /** `len(self.base)` */
    const simLength: nat
    /** `_cached_index_lists` */
    var cachedIndexList: Option<IndexList>
    /** `_cached_halos` */
    var cachedHalos: map<int, Halo>
    /** `_iord_to_fpos`, absent until `_init_iord_to_fpos` sets it */
    var iordToFpos: Option<FposMap>
    /** How many times `_get_index_list_all_halos` has been invoked. */
    ghost var hookCalls: nat

    /** The cache holds what the hook returns, and every memoised halo
        is the halo a fresh load gives for its ID. */
    ghost predicate Valid()
      reads this
    {
      && Consistent(format, cachedIndexList)
      && (format.Grp? ==> |format.groupArray| == simLength)
      && forall i :: i in cachedHalos ==>
           cachedHalos[i].haloId == i && HaloParticles(format, i) == Success(cachedHalos[i].particles)
    }

    /** `HaloCatalogue.__init__(sim)` (and `GrpCatalogue.__init__`). */
    constructor (format: Format, simLength: nat)
      requires FormatValid(format)
      requires format.Grp? ==> |format.groupArray| == simLength
      ensures Valid()
      ensures this.format == format && this.simLength == simLength
      ensures cachedIndexList == None && cachedHalos == map[] && iordToFpos == None && hookCalls == 0
    {
      this.format := format;
      this.simLength := simLength;
      cachedIndexList := None;
      cachedHalos := map[];
      iordToFpos := None;
      hookCalls := 0;
    }

    /** `load_all` */
    method LoadAll() returns (r: Result<()>)
      requires Valid()
      modifies this
      ensures Valid()
      ensures var k := LoadAllCall(format, old(cachedIndexList));
        r == k.result && cachedIndexList == k.cache && hookCalls == old(hookCalls) + k.hookCalls
      ensures cachedHalos == old(cachedHalos) && iordToFpos == old(iordToFpos)
    {
      LoadAllSpec(format, cachedIndexList);
      if !Truthy(cachedIndexList) {
        var all := AllHalos(format);
        hookCalls := hookCalls + 1;
        if all.Failure? {
          return Failure(all.error);
        }
        cachedIndexList := Some(all.value);
      }
      r := Success(());
    }

    /** `_get_halo_ids` */
    method HaloIds() returns (r: Result<seq<int>>)
      requires Valid()
      modifies this
      ensures Valid()
      ensures var k := HaloIdsCall(format, old(cachedIndexList));
        r == k.result && cachedIndexList == k.cache && hookCalls == old(hookCalls) + k.hookCalls
      ensures cachedHalos == old(cachedHalos) && iordToFpos == old(iordToFpos)
    {
      var o := LoadAll();
      if o.Failure? {
        return Failure(o.error);
      }
      r := Success(cachedIndexList.value.uniqueObjNumbers);
    }

    /** `_get_num_halos`, i.e. `len(catalogue)` */
    method NumHalos() returns (r: Result<nat>)
      requires Valid()
      modifies this
      ensures Valid()
      ensures var k := NumHalosCall(format, old(cachedIndexList));
        r == k.result && cachedIndexList == k.cache && hookCalls == old(hookCalls) + k.hookCalls
      ensures cachedHalos == old(cachedHalos) && iordToFpos == old(iordToFpos)
    {
      if cachedIndexList.Some? {
        return Success(Count(cachedIndexList.value));
      }
      var ids := HaloIds();
      if ids.Failure? {
        return Failure(ids.error);
      }
      r := Success(|ids.value|);
    }

    /** `_get_index_list_one_halo(i)` */
    method IndexListOneHalo(i: int) returns (r: Result<seq<int>>)
      requires Valid()
      modifies this
      ensures Valid()
      ensures var k := OneHaloCall(format, old(cachedIndexList), i);
        r == k.result && cachedIndexList == k.cache && hookCalls == old(hookCalls) + k.hookCalls
      ensures r == HaloParticles(format, i)
      ensures cachedHalos == old(cachedHalos) && iordToFpos == old(iordToFpos)
    {
      OneHaloSpec(format, cachedIndexList, i);
      if format.Grp? {
        return Success(Positions(format.groupArray, i));
      }
      var o := LoadAll();
      if o.Failure? {
        return Failure(o.error);
      }
      r := GetIndexList(cachedIndexList.value, i);
    }

    /** `_get_index_list_via_most_efficient_route(i)` */
    method IndexListViaMostEfficientRoute(i: int) returns (r: Result<seq<int>>)
      requires Valid()
      modifies this
      ensures Valid()
      ensures var k := RouteCall(format, old(cachedIndexList), i);
        r == k.result && cachedIndexList == k.cache && hookCalls == old(hookCalls) + k.hookCalls
      ensures cachedHalos == old(cachedHalos) && iordToFpos == old(iordToFpos)
    {
      if Truthy(cachedIndexList) {
        return GetIndexList(cachedIndexList.value, i);
      }
      r := IndexListOneHalo(i);
    }

    /** `_get_halo_cached(i)`, which is `catalogue[i]`: a memoised halo is
        returned as the same object; otherwise `_get_halo(i)` builds a
        fresh one from the one-halo route and memoises it.  Memoised
        halos are never dropped. */
    method HaloCached(i: int) returns (r: Result<Halo>)
      requires Valid()
      modifies this
      ensures Valid()
      ensures i in old(cachedHalos) ==>
        r == Success(old(cachedHalos)[i]) && cachedHalos == old(cachedHalos)
        && cachedIndexList == old(cachedIndexList) && hookCalls == old(hookCalls)
      ensures i !in old(cachedHalos) ==>
        var k := OneHaloCall(format, old(cachedIndexList), i);
        && cachedIndexList == k.cache && hookCalls == old(hookCalls) + k.hookCalls
        && (k.result.Failure? ==> r == Failure(k.result.error) && cachedHalos == old(cachedHalos))
        && (k.result.Success? ==>
              r.Success? && fresh(r.value) && r.value.haloId == i && r.value.particles == k.result.value
              && cachedHalos == old(cachedHalos)[i := r.value])
      ensures r.Success? ==> i in cachedHalos && cachedHalos[i] == r.value && r.value.haloId == i
      ensures r.Success? ==> HaloParticles(format, i) == Success(r.value.particles)
      ensures r.Failure? ==> HaloParticles(format, i) == Failure(r.error)
      ensures forall j :: j in old(cachedHalos) ==> j in cachedHalos && cachedHalos[j] == old(cachedHalos)[j]
      ensures iordToFpos == old(iordToFpos)
    {
      if i in cachedHalos {
        return Success(cachedHalos[i]);
      }
      var p := IndexListOneHalo(i);
      if p.Failure? {
        return Failure(p.error);
      }
      var h := new Halo(i, p.value);
      cachedHalos := cachedHalos[i := h];
      r := Success(h);
    }

    /** `catalogue[i]` for each `i` of `ids` in turn, stopping at the
        first exception (consuming the generator `__getitem__` and
        `__iter__` return). */
    method HalosFor(ids: seq<int>) returns (r: Result<seq<Halo>>)
      requires Valid()
      modifies this
      ensures Valid()
      ensures r.Success? ==> |r.value| == |ids| && forall k :: 0 <= k < |ids| ==>
        r.value[k].haloId == ids[k] && ids[k] in cachedHalos && cachedHalos[ids[k]] == r.value[k]
        && HaloParticles(format, ids[k]) == Success(r.value[k].particles)
      ensures r.Failure? <==> exists k :: 0 <= k < |ids| && HaloParticles(format, ids[k]).Failure?
      ensures r.Failure? ==> exists k :: (0 <= k < |ids| && HaloParticles(format, ids[k]) == Failure(r.error)
                                           && forall j :: 0 <= j < k ==> HaloParticles(format, ids[j]).Success?)
      ensures forall j :: j in old(cachedHalos) ==> j in cachedHalos && cachedHalos[j] == old(cachedHalos)[j]
      ensures iordToFpos == old(iordToFpos)
    {
      var out: seq<Halo> := [];
      var t := 0;
      while t < |ids|
        invariant 0 <= t <= |ids| && |out| == t
        invariant Valid()
        invariant forall k :: 0 <= k < t ==>
          out[k].haloId == ids[k] && ids[k] in cachedHalos && cachedHalos[ids[k]] == out[k]
        invariant forall k :: 0 <= k < t ==> HaloParticles(format, ids[k]).Success?
        invariant forall j :: j in old(cachedHalos) ==> j in cachedHalos && cachedHalos[j] == old(cachedHalos)[j]
        invariant iordToFpos == old(iordToFpos)
      {
        var h := HaloCached(ids[t]);
        if h.Failure? {
          return Failure(h.error);
        }
        out := out + [h.value];
        t := t + 1;
      }
      r := Success(out);
    }

    /** `catalogue[start:stop:step]`: the positions of the slice over
        `len(catalogue)`, each looked up as a halo ID. */
    method GetSlice(start: Option<int>, stop: Option<int>, step: Option<int>) returns (r: Result<seq<Halo>>)
      requires Valid()
      modifies this
      ensures Valid()
      ensures r.Success? ==>
        var n := NumHalosCall(format, old(cachedIndexList)).result;
        && n.Success?
        && SliceIndices(start, stop, step, n.value).Success?
        && var ids := SliceIndices(start, stop, step, n.value).value;
           |r.value| == |ids| && forall k :: 0 <= k < |ids| ==>
             r.value[k].haloId == ids[k] && ids[k] in cachedHalos && cachedHalos[ids[k]] == r.value[k]
      ensures step == Some(0) && NumHalosCall(format, old(cachedIndexList)).result.Success? ==> r == Failure(ValueError)
      ensures var n := NumHalosCall(format, old(cachedIndexList)).result;
        n.Failure? ==> r == Failure(n.error)
      ensures var n := NumHalosCall(format, old(cachedIndexList)).result;
        n.Success? ==>
          match SliceIndices(start, stop, step, n.value)
          case Failure(e) => r == Failure(e)
          case Success(ids) =>
            && (r.Failure? <==> exists k :: 0 <= k < |ids| && HaloParticles(format, ids[k]).Failure?)
            && (r.Failure? ==> exists k :: 0 <= k < |ids| && HaloParticles(format, ids[k]) == Failure(r.error))
      ensures forall j :: j in old(cachedHalos) ==> j in cachedHalos && cachedHalos[j] == old(cachedHalos)[j]
      ensures iordToFpos == old(iordToFpos)
    {
      var n := NumHalos();
      if n.Failure? {
        return Failure(n.error);
      }
      var ids := SliceIndices(start, stop, step, n.value);
      if ids.Failure? {
        return Failure(ids.error);
      }
      r := HalosFor(ids.value);
    }

    /** `__iter__`: every halo of the loaded IndexList, in ID order. */
    method Iter() returns (r: Result<seq<Halo>>)
      requires Valid()
      modifies this
      ensures Valid()
      ensures r.Success? ==>
        var ids := HaloIdsCall(format, old(cachedIndexList)).result;
        && ids.Success?
        && |r.value| == |ids.value| && forall k :: 0 <= k < |ids.value| ==>
             r.value[k].haloId == ids.value[k] && ids.value[k] in cachedHalos && cachedHalos[ids.value[k]] == r.value[k]
      ensures HaloIdsCall(format, old(cachedIndexList)).result.Failure? ==>
        r == Failure(HaloIdsCall(format, old(cachedIndexList)).result.error)
      ensures var ids := HaloIdsCall(format, old(cachedIndexList)).result;
        ids.Success? ==>
          && (r.Success? <==> forall k :: 0 <= k < |ids.value| ==> HaloParticles(format, ids.value[k]).Success?)
          && (r.Failure? ==> exists k :: 0 <= k < |ids.value| && HaloParticles(format, ids.value[k]) == Failure(r.error))
      ensures forall j :: j in old(cachedHalos) ==> j in cachedHalos && cachedHalos[j] == old(cachedHalos)[j]
      ensures iordToFpos == old(iordToFpos)
    {
      var ids := HaloIds();
      if ids.Failure? {
        return Failure(ids.error);
      }
      r := HalosFor(ids.value);
    }

    /** `get_group_array()`, or `GrpCatalogue.get_group_array(family)`. */
    method GetGroupArray(family: Option<Family>) returns (r: Result<seq<int>>)
      requires Valid()
      requires family.Some? ==> family.value.start <= family.value.stop <= simLength
      modifies this
      ensures Valid()
      ensures var k := GroupArrayCall(format, old(cachedIndexList), family, simLength);
        r == k.result && cachedIndexList == k.cache && hookCalls == old(hookCalls) + k.hookCalls
      ensures cachedHalos == old(cachedHalos) && iordToFpos == old(iordToFpos)
    {
      match format
      case Grp(arr) =>
        if family.None? {
          return Success(arr);
        }
        return Success(arr[family.value.start..family.value.stop]);
      case AllAtOnce(_) =>
        if family.Some? {
          return Failure(TypeError);
        }
        var o := LoadAll();
        if o.Failure? {
          return Failure(o.error);
        }
        r := GetObjectIdPerParticle(cachedIndexList.value, simLength, -1);
    }

    /** `load_copy(i)`: the particle list handed to the partial loader
        (the loading itself is not modelled). */
    method LoadCopy(i: int) returns (take: Result<seq<int>>)
      requires Valid()
      modifies this
      ensures Valid()
      ensures var k := RouteCall(format, old(cachedIndexList), i);
        take == k.result && cachedIndexList == k.cache && hookCalls == old(hookCalls) + k.hookCalls
      ensures cachedHalos == old(cachedHalos) && iordToFpos == old(iordToFpos)
    {
      take := IndexListViaMostEfficientRoute(i);
    }

    /** `_init_iord_to_fpos`, given the simulation's `iord` array when it
        has one: does nothing once the map exists. The empty table is
        assigned before the scatter, so a scatter that raises leaves that
        unwritten table in place, and later calls return without
        retrying; only the two errors of `np.empty` leave the map unset. */
    method InitIordToFpos(iord: Option<seq<int>>) returns (r: Result<()>)
      requires Valid()
      modifies this
      ensures Valid()
      ensures old(iordToFpos).Some? ==> r == Success(()) && iordToFpos == old(iordToFpos)
      ensures old(iordToFpos).None? && iord.None? ==> r == Success(()) && iordToFpos == Some(OneToOne)
      ensures old(iordToFpos).None? && iord.Some? ==>
        match EmptyTable(iord.value)
        case Failure(e) => r == Failure(e) && iordToFpos == None
        case Success(t0) =>
          match Scatter(t0, iord.value)
          case Failure(e) => r == Failure(e) && iordToFpos == Some(Table(t0))
          case Success(t) => r == Success(()) && iordToFpos == Some(Table(t))
      ensures cachedIndexList == old(cachedIndexList) && cachedHalos == old(cachedHalos)
      ensures hookCalls == old(hookCalls)
    {
      if iordToFpos.Some? {
        return Success(());
      }
      if iord.None? {
        iordToFpos := Some(OneToOne);
        return Success(());
      }
      var empty := EmptyTable(iord.value);
      if empty.Failure? {
        return Failure(empty.error);
      }
      iordToFpos := Some(Table(empty.value));
      var t := Scatter(empty.value, iord.value);
      if t.Failure? {
        return Failure(t.error);
      }
      iordToFpos := Some(Table(t.value));
      r := Success(());
    }
  }
}
