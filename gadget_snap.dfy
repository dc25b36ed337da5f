/** The imperative side of the Gadget-HDF reader (pynbody/gadgethdf.py):
    the loops of `_family_has_loadable_array` and `_load_array`, the
    element-wise writes into a newly created array, and the snapshot object
    whose array dictionaries `_load_array` fills.  Each loop is proved
    against the functions of module `GadgetHdf`. */
module GadgetSnap {
  import opened Wrappers
  import opened GadgetHdf

  // ---------------------------------------------------------------------
  // _family_has_loadable_array

  /** `for n in self._my_type_map[fam]`, returning False at the first type
      whose arrays lack the translated name. */
  method TypesHaveLoop(files: seq<Node>, types: seq<string>, key: string, subgroup: Option<string>) returns (r: Result<bool>)
    ensures r == TypesHave(files, types, key, subgroup)
  {
    for i := 0 to |types|
      invariant TypesHave(files, types, key, subgroup) == TypesHave(files, types[i..], key, subgroup)
    {
      assert types[i..][1..] == types[i + 1..];
      var ks := AllParticleArrays(files, types[i], subgroup);
      if ks.Failure? {
        return Failure(ks.error);
      }
      if key !in ks.value {
        return Success(false);
      }
    }
    assert types[|types|..] == [];
    return Success(true);
  }

  // ---------------------------------------------------------------------
  // _load_array: the search loop

  /** `while not_loaded`: try file after file until the family's first
      type yields the dataset. */
  method SearchLoop(files: seq<Node>, subgroup: Option<string>, mt: TypeMap, famx: string, tname: string) returns (r: Result<Found>)
    ensures r == Search(files, subgroup, mt, famx, tname, 0)
  {
    var i := 0;
    while true
      invariant i <= |files|
      invariant Search(files, subgroup, mt, famx, tname, 0) == Search(files, subgroup, mt, famx, tname, i)
      decreases |files| - i
    {
      if i >= |files| {
        return Failure(IndexError);
      }
      var hdf0 := InSubgroup(files[i], subgroup);
      if hdf0.Failure? {
        return Failure(hdf0.error);
      }
      var attempt := Attempt(hdf0.value, mt, famx, tname);
      if attempt.Success? {
        return Success(Found(i, hdf0.value, attempt.value.0, attempt.value.1));
      }
      if attempt.error != KeyError {
        return Failure(attempt.error);
      }
      i := i + 1;
    }
  }

  // ---------------------------------------------------------------------
  // _load_array: the block copy into the created array

  /** The element-wise assignment of `xs` to `a[off:off + len(xs)]`. */
  method WriteRun(a: array<real>, off: nat, xs: seq<real>)
    requires off + |xs| <= a.Length
    modifies a
    ensures a[..] == Splice(old(a[..]), off, xs)
  {
    ghost var before := a[..];
    for k := 0 to |xs|
      invariant forall q :: 0 <= q < a.Length ==> a[q] == if off <= q < off + k then xs[q - off] else before[q]
    {
      a[off + k] := xs[k];
    }
    forall q | 0 <= q < a.Length
      ensures a[q] == Splice(before, off, xs)[q]
    {
      SpliceAt(before, off, xs, q);
    }
  }

  /** One block written at cursor `i0` of the family's view: the new
      cursor and the exception, if any. */
  method PlaceInto(a: array<real>, v: View, i0: nat, b: Block) returns (i1: nat, err: Option<Error>)
    requires Fits(v, a.Length)
    modifies a
    ensures Filling(a[..], i1, err) == Place(Filling(old(a[..]), i0, None), v, b)
  {
    match b
    case Skip =>
      return i0, None;
    case Direct(l, data) =>
      var lo, hi := Clip(i0, v.rows), Clip(i0 + l, v.rows);
      if |data| != Width(v, hi - lo) {
        return i0, Some(TypeError);
      }
      WindowFits(v, lo, hi, a.Length);
      WriteRun(a, Offset(v, lo), data);
      return i0 + l, None;
    case Constant(l, x) =>
      var lo, hi := Clip(i0, v.rows), Clip(i0 + l, v.rows);
      WindowFits(v, lo, hi, a.Length);
      WriteRun(a, Offset(v, lo), Const(x, Width(v, hi - lo)));
      return i0 + l, None;
    case Reshaped(rows, data) =>
      var lo, hi := Clip(i0, v.rows), Clip(i0 + rows, v.rows);
      if |data| != rows * 3 || v.dy != 3 || (rows != hi - lo && rows != 1) {
        return i0, Some(ValueError);
      }
      WindowFits(v, lo, hi, a.Length);
      WriteRun(a, Offset(v, lo), if rows == hi - lo then data else Tile(data, hi - lo));
      return i0 + rows, None;
  }

  /** `for hdf in self._hdf` for one type, from cursor `i0`. */
  method CopyFilesInto(a: array<real>, v: View, files: seq<Node>, t: string, src: Source, i0: nat) returns (i1: nat, err: Option<Error>)
    requires Fits(v, a.Length)
    modifies a
    ensures Filling(a[..], i1, err) == CopyFiles(Filling(old(a[..]), i0, None), v, files, t, src)
  {
    ghost var init := Filling(a[..], i0, None);
    ghost var bs := Blocks(files, t, src);
    i1 := i0;
    for k := 0 to |files|
      invariant Filling(a[..], i1, None) == CopyBlocks(init, v, bs[..k])
    {
      assert bs[..k + 1][..k] == bs[..k];
      var blk := BlockOf(files[k], t, src);
      if blk.Failure? {
        CopyBlocksStopped(init, v, bs, k + 1);
        return i1, Some(blk.error);
      }
      i1, err := PlaceInto(a, v, i1, blk.value);
      if err.Some? {
        CopyBlocksStopped(init, v, bs, k + 1);
        return;
      }
    }
    assert bs[..|files|] == bs;
    err := None;
  }

  /** `for t in self._my_type_map[f]` for one family, the cursor starting
      at 0 and running on across types. */
  method CopyTypesInto(a: array<real>, v: View, types: seq<string>, files: seq<Node>, src: Source) returns (i0: nat, err: Option<Error>)
    requires Fits(v, a.Length)
    modifies a
    ensures Filling(a[..], i0, err) == CopyTypes(Filling(old(a[..]), 0, None), v, types, FileBlocks(files, src))
  {
    ghost var init := Filling(a[..], 0, None);
    i0 := 0;
    for k := 0 to |types|
      invariant Filling(a[..], i0, None) == CopyTypes(init, v, types[..k], FileBlocks(files, src))
    {
      assert types[..k + 1][..k] == types[..k];
      i0, err := CopyFilesInto(a, v, files, types[k], src, i0);
      if err.Some? {
        CopyTypesStopped(init, v, types, FileBlocks(files, src), k + 1);
        return;
      }
    }
    assert types[..|types|] == types;
    err := None;
  }

  /** `for f in fams`: one family after the other, stopping at the first
      exception. */
  method CopyFamiliesInto(a: array<real>, jobs: seq<FamilyJob>, files: seq<Node>, src: Source) returns (err: Option<Error>)
    requires JobsFit(jobs, a.Length)
    modifies a
    ensures a[..] == CopyFamilies(old(a[..]), jobs, FileBlocks(files, src)).arr
    ensures err == CopyFamilies(old(a[..]), jobs, FileBlocks(files, src)).error
  {
    ghost var init := a[..];
    for k := 0 to |jobs|
      invariant JobsFit(jobs[..k], |init|)
      invariant a[..] == CopyFamilies(init, jobs[..k], FileBlocks(files, src)).arr
      invariant CopyFamilies(init, jobs[..k], FileBlocks(files, src)).error.None?
    {
      JobsFitPrefix(jobs, |init|, k + 1);
      assert jobs[..k + 1][..k] == jobs[..k];
      var _, e := CopyTypesInto(a, jobs[k].view, jobs[k].types, files, src);
      if e.Some? {
        CopyFamiliesStopped(init, jobs, FileBlocks(files, src), k + 1);
        return e;
      }
    }
    assert jobs[..|jobs|] == jobs;
    err := None;
  }

  // ---------------------------------------------------------------------
  // The snapshot

  /** An array the snapshot holds: `dim` values per row, row-major. */
  datatype SimArray = SimArray(dim: nat, values: array<real>)

  /** What `_load_array` knows when it creates the array: the dimension
      and the plan of the copy. */
  datatype Prepared = Prepared(dim: nat, plan: Plan)

  /** The key of a family array: the family and the array name. */
  datatype FamilyKey = FamilyKey(family: string, name: string)

  /** `GadgetHDFSnap` after construction: the open files, the name
      translation both ways, the family layout, the loadable keys, and the
      arrays loaded so far for the whole snapshot and per family. */
  class GadgetHdfSnap {
    const files: seq<Node>
    const tr: string -> string
    const rev: string -> string
    const layout: Layout
    const loadableKeys: set<string>
    var arrays: map<string, SimArray>
    var familyArrays: map<FamilyKey, SimArray>

    /** The layout partitions the particles, and every array has one row
        per particle of the snapshot or of its family. */
    ghost predicate Valid()
      reads this
    {
      && LayoutOk(layout)
      && (forall name :: name in arrays ==> arrays[name].values.Length == Cells(layout.numParticles, arrays[name].dim))
      && (forall key :: key in familyArrays ==>
            familyArrays[key].values.Length == Cells(Rows(layout, Some(key.family)), familyArrays[key].dim))
    }

    constructor (files: seq<Node>, tr: string -> string, rev: string -> string, layout: Layout)
      requires LayoutOk(layout)
      ensures Valid()
      ensures this.files == files && this.tr == tr && this.rev == rev && this.layout == layout
      ensures loadableKeys == LoadableKeys(layout, rev)
      ensures arrays == map[] && familyArrays == map[]
    {
      this.files := files;
      this.tr := tr;
      this.rev := rev;
      this.layout := layout;
      this.loadableKeys := LoadableKeys(layout, rev);
      arrays := map[];
      familyArrays := map[];
    }

    /** `GadgetHDFSnap.__init__` once the files are open; the exception the
        constructor raises is the failure. */
    static method Open(files: seq<Node>, typeMap: TypeMap, tr: string -> string, rev: string -> string) returns (r: Result<GadgetHdfSnap>)
      ensures r.Success? <==> BuildLayout(files, typeMap).Success?
      ensures r.Failure? ==> r.error == BuildLayout(files, typeMap).error
      ensures r.Success? ==>
        && fresh(r.value) && r.value.Valid()
        && r.value.files == files && r.value.tr == tr && r.value.rev == rev
        && r.value.layout == BuildLayout(files, typeMap).value
        && r.value.loadableKeys == LoadableKeys(r.value.layout, rev)
        && r.value.arrays == map[] && r.value.familyArrays == map[]
    {
      var l := OpenLayout(files, typeMap);
      if l.Failure? {
        return Failure(l.error);
      }
      BuildLayoutSpec(files, typeMap);
      var snap := new GadgetHdfSnap(files, tr, rev, l.value);
      return Success(snap);
    }

    /** `_family_has_loadable_array(fam, name, subgroup)`. */
    method FamilyHasLoadableArray(fam: Option<string>, name: string, subgroup: Option<string>) returns (r: Result<bool>)
      ensures r == HasLoadable(files, layout.myTypes, tr, fam, name, subgroup)
    {
      if name == "mass" {
        return Success(true);
      }
      if |files| == 0 {
        return Failure(IndexError);
      }
      var hdf := InSubgroup(files[0], subgroup);
      if hdf.Failure? {
        return Failure(hdf.error);
      }
      if fam.None? {
        return AllFamilies(files, layout.myTypes, tr, Families(layout.myTypes), name, subgroup);
      }
      var types := Lookup(layout.myTypes, fam.value);
      if types.Failure? {
        return Failure(types.error);
      }
      r := TypesHaveLoop(files, types.value, tr(name), subgroup);
    }

    /** `_load_array` up to `_create_array`: the loadable check, the
        search for a first dataset and its dimension, and the plan of the
        array to create. */
    method PrepareLoad(name: string, fam: Option<string>, subgroup: Option<string>) returns (r: Result<Prepared>)
      requires Valid()
      ensures r.Failure? ==> Loaded(files, layout, tr, name, fam, subgroup) == NotCreated(r.error)
      ensures r.Success? ==>
        && MakePlan(layout, fam, r.value.dim) == Success(r.value.plan)
        && Loaded(files, layout, tr, name, fam, subgroup) == Fill(files, layout, fam, r.value.dim, Source(subgroup, tr(name)))
    {
      var ok := FamilyHasLoadableArray(fam, name, subgroup);
      if ok.Failure? {
        return Failure(ok.error);
      }
      if !ok.value {
        return Failure(IOError);
      }
      var famx: string;
      if fam.Some? {
        famx := fam.value;
      } else {
        if |layout.slices| == 0 {
          return Failure(IndexError);
        }
        famx := layout.slices[0].family;
      }
      var found := SearchLoop(files, subgroup, layout.myTypes, famx, tr(name));
      if found.Failure? {
        return Failure(found.error);
      }
      var dy := Dimension(found.value);
      if dy.Failure? {
        return Failure(dy.error);
      }
      var plan := MakePlan(layout, fam, dy.value);
      if plan.Failure? {
        return Failure(plan.error);
      }
      return Success(Prepared(dy.value, plan.value));
    }

    /** Stores a newly created array: in `arrays` for the snapshot, in
        `familyArrays` for a family. */
    method Store(name: string, fam: Option<string>, stored: SimArray)
      requires Valid() && stored.values.Length == Cells(Rows(layout, fam), stored.dim)
      modifies this
      ensures Valid()
      ensures fam.None? ==> arrays == old(arrays)[name := stored] && familyArrays == old(familyArrays)
      ensures fam.Some? ==> familyArrays == old(familyArrays)[FamilyKey(fam.value, name) := stored] && arrays == old(arrays)
    {
      if fam.None? {
        arrays := arrays[name := stored];
      } else {
        familyArrays := familyArrays[FamilyKey(fam.value, name) := stored];
      }
    }

    /** `_load_array(name, fam, subgroup)`. An exception before the array
        is created leaves the snapshot as it was; once created, the array
        is stored (for the snapshot, or for the family) and keeps whatever
        the copy wrote before an exception stopped it. */
    method LoadArray(name: string, fam: Option<string>, subgroup: Option<string>) returns (r: Outcome)
      requires Valid()
      modifies this
      ensures Valid()
      ensures match Loaded(files, layout, tr, name, fam, subgroup)
        case NotCreated(e) =>
          r == Fail(e) && arrays == old(arrays) && familyArrays == old(familyArrays)
        case Created(dy, vs, e) =>
          && r == (if e.None? then Pass else Fail(e.value))
          && (fam.None? ==>
                && name in arrays && fresh(arrays[name].values)
                && arrays[name].dim == dy && arrays[name].values[..] == vs
                && arrays == old(arrays)[name := arrays[name]] && familyArrays == old(familyArrays))
          && (fam.Some? ==>
                var key := FamilyKey(fam.value, name);
                && key in familyArrays && fresh(familyArrays[key].values)
                && familyArrays[key].dim == dy && familyArrays[key].values[..] == vs
                && familyArrays == old(familyArrays)[key := familyArrays[key]] && arrays == old(arrays))
    {
      var prep := PrepareLoad(name, fam, subgroup);
      if prep.Failure? {
        return Fail(prep.error);
      }
      var dy, p := prep.value.dim, prep.value.plan;
      PlanFits(layout, fam, dy);
      var n := Cells(p.rows, dy);
      var src := Source(subgroup, tr(name));
      ghost var c := CopyFamilies(Const(0.0, n), p.jobs, FileBlocks(files, src));
      assert Loaded(files, layout, tr, name, fam, subgroup) == Created(dy, c.arr, c.error);
      FillSize(files, layout, fam, dy, src);
      var buf := new real[n](_ => 0.0);
      assert buf[..] == Const(0.0, n);
      var stored := SimArray(dy, buf);
      Store(name, fam, stored);
      var err := CopyFamiliesInto(buf, p.jobs, files, src);
      assert buf[..] == c.arr && err == c.error;
      r := if err.None? then Pass else Fail(err.value);
    }
  }
}
