/** The integer bookkeeping of the Gadget-HDF reader (pynbody/gadgethdf.py):
    the tree of groups and datasets in each file, the path walk and the
    header-mass dummy, the keys of the arrays on disk, the per-family
    type map and particle slices, and the block copy of `_load_array`.
    The code is Python 2: `/` on integers is floor division. */
module GadgetHdf {
  import opened Wrappers
  import opened PyStrings

  // ---------------------------------------------------------------------
  // The HDF5 tree

  /** An HDF5 object: a group of named members (with its `MassTable`
      attribute, when it has one) or a dataset with its shape and its
      values in row-major order. */
  datatype Node =
    | Group(entries: seq<Member>, massTable: Option<seq<real>>)
    | Dataset(shape: seq<nat>, data: seq<real>)

  datatype Member = Member(name: string, node: Node)

  /** `group[name]` for a name without `/`: a missing member is a
      KeyError, and naming into a dataset (a field name on a plain
      dtype) is a ValueError. */
  function Child(n: Node, name: string): Result<Node> {
    if n.Dataset? then Failure(ValueError) else Find(n.entries, name)
  }

  function Find(ms: seq<Member>, name: string): Result<Node> {
    if |ms| == 0 then Failure(KeyError)
    else if ms[0].name == name then Success(ms[0].node)
    else Find(ms[1..], name)
  }

  /** The lookup fails exactly when no member has the name, and then
      with a KeyError; otherwise it gives a member of that name. */
  lemma {:induction false} FindSpec(ms: seq<Member>, name: string)
    ensures Find(ms, name).Failure? <==> forall i :: 0 <= i < |ms| ==> ms[i].name != name
    ensures Find(ms, name).Failure? ==> Find(ms, name).error == KeyError
    ensures Find(ms, name).Success? ==> exists i :: 0 <= i < |ms| && ms[i] == Member(name, Find(ms, name).value)
  {
    if |ms| > 0 && ms[0].name != name {
      FindSpec(ms[1..], name);
      assert forall i :: 0 < i < |ms| ==> ms[i] == ms[1..][i - 1];
      if Find(ms, name).Success? {
        var j :| 0 <= j < |ms[1..]| && ms[1..][j] == Member(name, Find(ms, name).value);
        assert ms[j + 1] == ms[1..][j];
      }
    }
  }

  /** A child lookup raises KeyError or ValueError, or gives a member. */
  lemma {:induction false} ChildSpec(n: Node, name: string)
    ensures Child(n, name).Failure? ==> Child(n, name).error == KeyError || Child(n, name).error == ValueError
    ensures Child(n, name).Success? ==> n.Group? && exists i :: 0 <= i < |n.entries| && n.entries[i] == Member(name, Child(n, name).value)
  {
    if n.Group? {
      FindSpec(n.entries, name);
    }
  }

  /** Within every group the member names are distinct, non-empty and
      free of `/`, as HDF5 requires. */
  predicate WellFormed(n: Node) {
    n.Group? ==>
      && (forall i, j :: 0 <= i < j < |n.entries| ==> n.entries[i].name != n.entries[j].name)
      && (forall i :: 0 <= i < |n.entries| ==> |n.entries[i].name| > 0 && '/' !in n.entries[i].name)
      && (forall i :: 0 <= i < |n.entries| ==> WellFormed(n.entries[i].node))
  }

  /** In a well-formed group each member is found under its own name. */
  lemma {:induction false} FindMember(n: Node, i: nat)
    requires WellFormed(n) && n.Group? && i < |n.entries|
    ensures Child(n, n.entries[i].name) == Success(n.entries[i].node)
  {
    var r := Child(n, n.entries[i].name);
    FindSpec(n.entries, n.entries[i].name);
    var j :| 0 <= j < |n.entries| && n.entries[j] == Member(n.entries[i].name, r.value);
    assert j == i;
  }

  /** `for tpart in path: ret = ret[tpart]` */
  function Walk(n: Node, path: seq<string>): Result<Node>
    decreases |path|
  {
    if |path| == 0 then Success(n)
    else
      match Child(n, path[0])
      case Failure(e) => Failure(e)
      case Success(c) => Walk(c, path[1..])
  }

  /** Walking a path in two parts is walking the first, then the second. */
  lemma {:induction false} WalkAppend(n: Node, a: seq<string>, b: seq<string>)
    ensures Walk(n, a + b) == match Walk(n, a) case Failure(e) => Failure(e) case Success(m) => Walk(m, b)
    decreases |a|
  {
    if |a| == 0 {
      assert a + b == b;
    } else {
      assert (a + b)[0] == a[0];
      assert (a + b)[1..] == a[1..] + b;
      if Child(n, a[0]).Success? {
        WalkAppend(Child(n, a[0]).value, a[1..], b);
      }
    }
  }

  /** `len(obj)`: the first dimension of a dataset (a TypeError for a
      scalar one) or the member count of a group. */
  function Len(n: Node): Result<nat> {
    match n
    case Group(es, _) => Success(|es|)
    case Dataset(shape, _) => if |shape| == 0 then Failure(TypeError) else Success(shape[0])
  }

  // ---------------------------------------------------------------------
  // _get_hdf_allarray_keys

  /** The member paths of every dataset under `n` from member `i` on, in
      visiting order (`visititems` reports groups too, which the callback
      skips). */
  function Paths(n: Node, i: nat): seq<seq<string>>
    decreases n, if n.Group? && i <= |n.entries| then |n.entries| - i else 0
  {
    if n.Dataset? || i >= |n.entries| then []
    else
      var m := n.entries[i];
      assert m in n.entries;
      var here := if m.node.Dataset? then [[m.name]] else Prefixed(m.name, Paths(m.node, 0));
      here + Paths(n, i + 1)
  }

  function Prefixed(name: string, ps: seq<seq<string>>): (r: seq<seq<string>>)
    ensures |r| == |ps| && forall k :: 0 <= k < |ps| ==> r[k] == [name] + ps[k]
  {
    seq(|ps|, k requires 0 <= k < |ps| => [name] + ps[k])
  }

  /** A path that is non-empty, free of `/` in each segment and walks
      from `n` to a dataset. */
  predicate DatasetPath(n: Node, p: seq<string>) {
    && |p| >= 1
    && (forall s :: 0 <= s < |p| ==> '/' !in p[s])
    && Walk(n, p).Success? && Walk(n, p).value.Dataset?
  }

  /** Every path of `ps` is a dataset path of `n`. */
  predicate DatasetPaths(n: Node, ps: seq<seq<string>>) {
    forall k :: 0 <= k < |ps| ==> DatasetPath(n, ps[k])
  }

  lemma {:induction false} DatasetPathsAppend(n: Node, ps: seq<seq<string>>, qs: seq<seq<string>>)
    requires DatasetPaths(n, ps) && DatasetPaths(n, qs)
    ensures DatasetPaths(n, ps + qs)
  {
    forall k | 0 <= k < |ps + qs| ensures DatasetPath(n, (ps + qs)[k]) {
      if k < |ps| {
        assert (ps + qs)[k] == ps[k];
      } else {
        assert (ps + qs)[k] == qs[k - |ps|];
      }
    }
  }

  /** The paths member `i` contributes lead to datasets. */
  lemma {:induction false} MemberPathsWalk(n: Node, i: nat)
    requires WellFormed(n) && n.Group? && i < |n.entries|
    requires n.entries[i].node.Group? ==> DatasetPaths(n.entries[i].node, Paths(n.entries[i].node, 0))
    ensures var m := n.entries[i];
      DatasetPaths(n, if m.node.Dataset? then [[m.name]] else Prefixed(m.name, Paths(m.node, 0)))
  {
    var m := n.entries[i];
    FindMember(n, i);
    assert Walk(n, [m.name]) == Success(m.node) by {
      assert [m.name][1..] == [];
    }
    if m.node.Group? {
      var inner := Paths(m.node, 0);
      var here := Prefixed(m.name, inner);
      forall k | 0 <= k < |inner| ensures DatasetPath(n, here[k]) {
        var p := [m.name] + inner[k];
        assert here[k] == p;
        WalkAppend(n, [m.name], inner[k]);
        assert DatasetPath(m.node, inner[k]);
        forall s | 0 <= s < |p| ensures '/' !in p[s] {
          if s > 0 {
            assert p[s] == inner[k][s - 1];
          }
        }
      }
    } else {
      assert DatasetPath(n, [m.name]);
    }
  }

  /** Every listed path is non-empty and walks to a dataset. */
  lemma {:induction false} PathsWalk(n: Node, i: nat)
    requires WellFormed(n)
    ensures DatasetPaths(n, Paths(n, i))
    decreases n, if n.Group? && i <= |n.entries| then |n.entries| - i else 0
  {
    if n.Group? && i < |n.entries| {
      var m := n.entries[i];
      assert m in n.entries;
      PathsWalk(n, i + 1);
      if m.node.Group? {
        PathsWalk(m.node, 0);
      }
      MemberPathsWalk(n, i);
      var here := if m.node.Dataset? then [[m.name]] else Prefixed(m.name, Paths(m.node, 0));
      DatasetPathsAppend(n, here, Paths(n, i + 1));
    }
  }

  /** `_get_hdf_allarray_keys(group)`: the `/`-joined paths of the
      datasets below a group; `visititems` on a dataset is an
      AttributeError. */
  function ArrayKeys(n: Node): (r: Result<seq<string>>)
    ensures r.Success? ==> |r.value| == |Paths(n, 0)|
  {
    if n.Dataset? then Failure(AttributeError)
    else
      var ps := Paths(n, 0);
      Success(seq(|ps|, k requires 0 <= k < |ps| => if |ps[k]| == 0 then [] else JoinOn(ps[k], '/')))
  }

  /** Round trip: every key listed under a well-formed group names a
      dataset, reached by splitting the key on `/` and walking. */
  lemma {:induction false} ArrayKeysWalk(n: Node, k: nat)
    requires WellFormed(n) && ArrayKeys(n).Success? && k < |ArrayKeys(n).value|
    ensures var w := Walk(n, SplitOn(ArrayKeys(n).value[k], '/')); w.Success? && w.value.Dataset?
  {
    PathsWalk(n, 0);
    var p := Paths(n, 0)[k];
    assert DatasetPath(n, p);
    JoinOnSplit(p, '/');
  }

  // ---------------------------------------------------------------------
  // _get_hdf_dataset and DummyHDFData

  /** What `_get_hdf_dataset` returns: an object of the file, or the
      dummy standing for a mass kept in the header. */
  datatype Data = Stored(node: Node) | Dummy(value: real, length: nat)

  /** The header-mass branch: `Some` dummy when the header gives the type
      a positive mass, `None` when the branch falls through (each of its
      IndexErrors and KeyErrors is caught).  A last character of the
      group name that is not a digit makes `int` raise ValueError, which
      is not caught. */
  function MassDummy(group: Node, typeName: string, parent: Node): Result<Option<Data>> {
    if |typeName| == 0 then Success(None)
    else if !IsDigit(typeName[|typeName| - 1]) then Failure(ValueError)
    else
      var pgid := DigitValue(typeName[|typeName| - 1]);
      match Child(parent, "Header")
      case Failure(e) => if e == KeyError then Success(None) else Failure(e)
      case Success(header) =>
        if header.Dataset? || header.massTable.None? || pgid >= |header.massTable.value| then Success(None)
        else
          var mtab := header.massTable.value[pgid];
          if mtab <= 0.0 then Success(None)
          else
            match Child(group, "Coordinates")
            case Failure(e) => if e == KeyError then Success(None) else Failure(e)
            case Success(coords) =>
              match coords
              case Group(_, _) => Failure(AttributeError)
              case Dataset(shape, _) => if |shape| == 0 then Success(None) else Success(Some(Dummy(mtab, shape[0])))
  }

  /** `_get_hdf_dataset(particle_group, hdf_name)`, the group being
      member `typeName` of `parent`. */
  function HdfDataset(group: Node, typeName: string, parent: Node, hdfName: string): Result<Data> {
    var dummy := if hdfName == "Mass" then MassDummy(group, typeName, parent) else Success(None);
    match dummy
    case Failure(e) => Failure(e)
    case Success(Some(d)) => Success(d)
    case Success(None) =>
      match Walk(group, SplitOn(hdfName, '/'))
      case Failure(e) => Failure(e)
      case Success(n) => Success(Stored(n))
  }

  /** Any name but `Mass` is a plain walk of its `/`-separated segments. */
  lemma {:induction false} HdfDatasetWalk(group: Node, typeName: string, parent: Node, segments: seq<string>)
    requires |segments| >= 1 && forall k :: 0 <= k < |segments| ==> '/' !in segments[k]
    requires JoinOn(segments, '/') != "Mass"
    ensures HdfDataset(group, typeName, parent, JoinOn(segments, '/')) ==
      match Walk(group, segments) case Failure(e) => Failure(e) case Success(n) => Success(Stored(n))
  {
    JoinOnSplit(segments, '/');
  }

  /** A `Mass` lookup for a type whose header mass is positive gives the
      dummy, as long as the last character of the type's name is its
      digit and the group has a non-scalar `Coordinates` dataset; its
      length is the number of coordinates. */
  lemma {:induction false} HdfDatasetMass(group: Node, typeName: string, parent: Node, header: Node, coords: Node)
    requires |typeName| > 0 && IsDigit(typeName[|typeName| - 1])
    requires Child(parent, "Header") == Success(header) && header.Group? && header.massTable.Some?
    requires DigitValue(typeName[|typeName| - 1]) < |header.massTable.value|
    requires header.massTable.value[DigitValue(typeName[|typeName| - 1])] > 0.0
    requires Child(group, "Coordinates") == Success(coords) && coords.Dataset? && |coords.shape| > 0
    ensures HdfDataset(group, typeName, parent, "Mass") ==
      Success(Dummy(header.massTable.value[DigitValue(typeName[|typeName| - 1])], coords.shape[0]))
  {
  }

  /** The shape of what `_get_hdf_dataset` returned: `(length,)` for the
      dummy; a group has none (AttributeError). */
  function DataShape(d: Data): Result<seq<nat>> {
    match d
    case Dummy(_, length) => Success([length])
    case Stored(n) => if n.Group? then Failure(AttributeError) else Success(n.shape)
  }

  function DataLen(d: Data): Result<nat> {
    match d
    case Dummy(_, length) => Success(length)
    case Stored(n) => Len(n)
  }

  // ---------------------------------------------------------------------
  // _get_all_particle_arrays

  /** The group of one file that a subgroup selects: `hdf[subgroup]`. */
  function InSubgroup(file: Node, subgroup: Option<string>): Result<Node> {
    if subgroup.None? then Success(file) else Child(file, subgroup.value)
  }

  /** The array keys of gadget type `gtype` in one file. */
  function FileKeys(file: Node, gtype: string, subgroup: Option<string>): Result<seq<string>> {
    match InSubgroup(file, subgroup)
    case Failure(e) => Failure(e)
    case Success(base) =>
      match Child(base, gtype)
      case Failure(e) => Failure(e)
      case Success(g) => ArrayKeys(g)
  }

  function AsSet(ks: seq<string>): (r: set<string>)
    ensures forall k :: k in r <==> k in ks
  {
    set k | k in ks
  }

  /** `_get_all_particle_arrays(gtype, subgroup)`: the keys of every file
      together, without repeats; the first failing lookup raises. */
  function AllParticleArrays(files: seq<Node>, gtype: string, subgroup: Option<string>): Result<set<string>> {
    if |files| == 0 then Success({})
    else
      match FileKeys(files[0], gtype, subgroup)
      case Failure(e) => Failure(e)
      case Success(ks) =>
        match AllParticleArrays(files[1..], gtype, subgroup)
        case Failure(e) => Failure(e)
        case Success(rest) => Success(AsSet(ks) + rest)
  }

  /** The lookup succeeds iff it succeeds in every file. */
  lemma {:induction false} AllParticleArraysSucceeds(files: seq<Node>, gtype: string, subgroup: Option<string>)
    ensures AllParticleArrays(files, gtype, subgroup).Success? <==>
      forall i :: 0 <= i < |files| ==> FileKeys(files[i], gtype, subgroup).Success?
  {
    if |files| > 0 {
      AllParticleArraysSucceeds(files[1..], gtype, subgroup);
      assert forall i :: 0 < i < |files| ==> files[i] == files[1..][i - 1];
    }
  }

  predicate KeyInFile(files: seq<Node>, i: nat, gtype: string, subgroup: Option<string>, key: string)
    requires i < |files|
  {
    FileKeys(files[i], gtype, subgroup).Success? && key in FileKeys(files[i], gtype, subgroup).value
  }

  lemma {:induction false} AllParticleArraysHas(files: seq<Node>, gtype: string, subgroup: Option<string>, key: string)
    requires AllParticleArrays(files, gtype, subgroup).Success?
    ensures key in AllParticleArrays(files, gtype, subgroup).value <==>
      exists i :: 0 <= i < |files| && KeyInFile(files, i, gtype, subgroup, key)
  {
    if |files| > 0 {
      AllParticleArraysHas(files[1..], gtype, subgroup, key);
      var ks := FileKeys(files[0], gtype, subgroup).value;
      var rest := AllParticleArrays(files[1..], gtype, subgroup).value;
      assert AllParticleArrays(files, gtype, subgroup).value == AsSet(ks) + rest;
      if key in ks {
        assert KeyInFile(files, 0, gtype, subgroup, key);
      } else if key in rest {
        var j :| 0 <= j < |files[1..]| && KeyInFile(files[1..], j, gtype, subgroup, key);
        assert files[1..][j] == files[j + 1];
        assert KeyInFile(files, j + 1, gtype, subgroup, key);
      } else {
        forall i | 0 <= i < |files| ensures !KeyInFile(files, i, gtype, subgroup, key) {
          if i > 0 {
            assert files[i] == files[1..][i - 1];
            assert !KeyInFile(files[1..], i - 1, gtype, subgroup, key);
          }
        }
      }
    }
  }

  /** The union is exact: a key is listed iff some file has it for the
      type. */
  lemma {:induction false} AllParticleArraysSpec(files: seq<Node>, gtype: string, subgroup: Option<string>)
    requires AllParticleArrays(files, gtype, subgroup).Success?
    ensures forall key :: key in AllParticleArrays(files, gtype, subgroup).value <==>
      exists i :: 0 <= i < |files| && KeyInFile(files, i, gtype, subgroup, key)
  {
    forall key ensures key in AllParticleArrays(files, gtype, subgroup).value <==>
      exists i :: 0 <= i < |files| && KeyInFile(files, i, gtype, subgroup, key)
    {
      AllParticleArraysHas(files, gtype, subgroup, key);
    }
  }

  // ---------------------------------------------------------------------
  // The family layout built by GadgetHDFSnap.__init__

  /** One entry of the configured type map: a family and its gadget
      types. */
  datatype FamilyTypes = FamilyTypes(family: string, types: seq<string>)

  /** The type map, one entry per family in the order the dictionary is
      iterated. */
  type TypeMap = seq<FamilyTypes>

  /** The types of `types` that are members of the first file's root group,
      in their configured order. */
  function PresentTypes(root: Node, types: seq<string>): (r: seq<string>)
    ensures forall x :: x in r <==> x in types && Child(root, x).Success?
  {
    if |types| == 0 then []
    else
      var x := types[|types| - 1];
      var r := PresentTypes(root, types[..|types| - 1]);
      assert types == types[..|types| - 1] + [x];
      if Child(root, x).Success? then r + [x] else r
  }

  /** An entry as `my_type_map` keeps it. */
  function Kept(root: Node, e: FamilyTypes): FamilyTypes {
    FamilyTypes(e.family, PresentTypes(root, e.types))
  }

  /** `my_type_map`: every family paired with its present types; a family
      none of whose types is present is dropped. */
  function MyTypeMap(root: Node, typeMap: TypeMap): (r: TypeMap)
    ensures forall j :: 0 <= j < |r| ==> |r[j].types| > 0
  {
    if |typeMap| == 0 then []
    else
      var r := MyTypeMap(root, typeMap[..|typeMap| - 1]);
      var e := Kept(root, typeMap[|typeMap| - 1]);
      if |e.types| > 0 then r + [e] else r
  }

  /** Entry `i` of the type map, kept and non-empty. */
  predicate KeptAt(root: Node, typeMap: TypeMap, i: int, e: FamilyTypes) {
    0 <= i < |typeMap| && e == Kept(root, typeMap[i]) && |e.types| > 0
  }

  lemma {:induction false} MyTypeMapHas(root: Node, typeMap: TypeMap, e: FamilyTypes)
    ensures e in MyTypeMap(root, typeMap) <==> exists i :: KeptAt(root, typeMap, i, e)
  {
    if |typeMap| > 0 {
      var k := |typeMap| - 1;
      var front := typeMap[..k];
      MyTypeMapHas(root, front, e);
      var last := Kept(root, typeMap[k]);
      assert MyTypeMap(root, typeMap) == if |last.types| > 0 then MyTypeMap(root, front) + [last] else MyTypeMap(root, front);
      if e in MyTypeMap(root, front) {
        var i :| KeptAt(root, front, i, e);
        assert front[i] == typeMap[i];
        assert KeptAt(root, typeMap, i, e);
      } else if e in MyTypeMap(root, typeMap) {
        assert KeptAt(root, typeMap, k, e);
      } else {
        forall i | 0 <= i < |typeMap| ensures !KeptAt(root, typeMap, i, e) {
          if i < k {
            assert front[i] == typeMap[i];
            assert !KeptAt(root, front, i, e);
          }
        }
      }
    }
  }

  /** The kept entries are exactly the configured families with their
      present types, for the families that have any. */
  lemma {:induction false} MyTypeMapSpec(root: Node, typeMap: TypeMap)
    ensures forall e :: e in MyTypeMap(root, typeMap) <==> exists i :: KeptAt(root, typeMap, i, e)
  {
    forall e ensures e in MyTypeMap(root, typeMap) <==> exists i :: KeptAt(root, typeMap, i, e) {
      MyTypeMapHas(root, typeMap, e);
    }
  }

  /** `hdf[name]['Coordinates'].shape[0]` for one file: a group has no
      shape (AttributeError) and a scalar shape has no first entry
      (IndexError). */
  function CoordCount(file: Node, name: string): Result<nat> {
    match Child(file, name)
    case Failure(e) => Failure(e)
    case Success(g) =>
      match Child(g, "Coordinates")
      case Failure(e) => Failure(e)
      case Success(c) =>
        match c
        case Group(_, _) => Failure(AttributeError)
        case Dataset(shape, _) => if |shape| == 0 then Failure(IndexError) else Success(shape[0])
  }

  /** The particles of type `name` over all files; the first failing file
      raises. */
  function TypeCount(files: seq<Node>, name: string): Result<nat> {
    if |files| == 0 then Success(0)
    else
      Plus(TypeCount(files[..|files| - 1], name), CoordCount(files[|files| - 1], name))
  }

  /** `l += c`, raising the first of the two failures. */
  function Plus(a: Result<nat>, b: Result<nat>): Result<nat> {
    if a.Failure? then a else if b.Failure? then b else Success(a.value + b.value)
  }

  /** The particles of a family: its types over all files. */
  function FamilyCount(files: seq<Node>, types: seq<string>): Result<nat> {
    if |types| == 0 then Success(0)
    else
      Plus(FamilyCount(files, types[..|types| - 1]), TypeCount(files, types[|types| - 1]))
  }

  /** A type count succeeds iff every file has the type with a non-scalar
      `Coordinates` dataset, and is then the sum of their lengths. */
  lemma {:induction false} TypeCountSpec(files: seq<Node>, name: string)
    ensures TypeCount(files, name).Success? <==> forall k :: 0 <= k < |files| ==> CoordCount(files[k], name).Success?
    ensures TypeCount(files, name).Success? ==>
      TypeCount(files, name).value == SumCounts(seq(|files|, k requires 0 <= k < |files| => CoordCount(files[k], name)))
  {
    if |files| > 0 {
      var k := |files| - 1;
      TypeCountSpec(files[..k], name);
      assert forall j :: 0 <= j < k ==> files[..k][j] == files[j];
      var all := seq(|files|, j requires 0 <= j < |files| => CoordCount(files[j], name));
      var front := seq(k, j requires 0 <= j < k => CoordCount(files[..k][j], name));
      assert all[..k] == front;
    }
  }

  /** The total of a list of successful counts (zero past the first
      failure, which no caller reaches). */
  function SumCounts(cs: seq<Result<nat>>): nat {
    if |cs| == 0 then 0
    else SumCounts(cs[..|cs| - 1]) + (if cs[|cs| - 1].Success? then cs[|cs| - 1].value else 0)
  }

  /** One family's particle range `slice(start, stop)`. */
  datatype FamilySlice = FamilySlice(family: string, start: nat, stop: nat)

  /** What the constructor keeps: `_my_type_map`, `_family_slice`,
      the array keys on disk (before their reverse translation) and
      `_num_particles`. */
  datatype Layout = Layout(myTypes: TypeMap, slices: seq<FamilySlice>, diskKeys: set<string>, numParticles: nat)

  /** The slice bookkeeping so far: the slices, the keys and `sl_start`. */
  datatype Slicing = Slicing(slices: seq<FamilySlice>, keys: set<string>, next: nat)

  /** One family of the slice loop: its count, its slice, and the keys of
      its LAST type in the first file (`name` is the loop variable the
      inner loop leaves behind). */
  function SliceStep(files: seq<Node>, acc: Slicing, e: FamilyTypes): Result<Slicing>
    requires |files| > 0 && |e.types| > 0
  {
    match FamilyCount(files, e.types)
    case Failure(err) => Failure(err)
    case Success(l) =>
      match Child(files[0], e.types[|e.types| - 1])
      case Failure(err) => Failure(err)
      case Success(g) =>
        match ArrayKeys(g)
        case Failure(err) => Failure(err)
        case Success(k) => Success(Slicing(acc.slices + [FamilySlice(e.family, acc.next, acc.next + l)], acc.keys + AsSet(k), acc.next + l))
  }

  function SliceFamilies(files: seq<Node>, mt: TypeMap): Result<Slicing>
    requires |files| > 0 && forall j :: 0 <= j < |mt| ==> |mt[j].types| > 0
  {
    if |mt| == 0 then Success(Slicing([], {}, 0))
    else
      match SliceFamilies(files, mt[..|mt| - 1])
      case Failure(e) => Failure(e)
      case Success(acc) => SliceStep(files, acc, mt[|mt| - 1])
  }

  /** `GadgetHDFSnap.__init__` after the files are open: with no file, the
      first look at `self._hdf[0]` is an IndexError (unless no family
      lists a type). */
  function BuildLayout(files: seq<Node>, typeMap: TypeMap): Result<Layout> {
    if |files| == 0 then
      if exists i :: 0 <= i < |typeMap| && |typeMap[i].types| > 0 then Failure(IndexError)
      else Success(Layout([], [], {}, 0))
    else
      var mt := MyTypeMap(files[0], typeMap);
      match SliceFamilies(files, mt)
      case Failure(e) => Failure(e)
      case Success(acc) => Success(Layout(mt, acc.slices, acc.keys, acc.next))
  }

  /** `_loadable_keys`: the disk keys under their pynbody names. */
  function LoadableKeys(l: Layout, rev: string -> string): set<string> {
    set k | k in l.diskKeys :: rev(k)
  }

  /** The family slices partition `[0, n)` in order. */
  predicate Consecutive(sl: seq<FamilySlice>, n: nat) {
    && (forall j :: 0 <= j < |sl| ==> sl[j].start <= sl[j].stop)
    && (forall j :: 0 <= j < |sl| - 1 ==> sl[j].stop == sl[j + 1].start)
    && (if |sl| == 0 then n == 0 else sl[0].start == 0 && sl[|sl| - 1].stop == n)
  }

  /** One slice per kept family, in order, partitioning the particles. */
  predicate LayoutOk(l: Layout) {
    && |l.slices| == |l.myTypes|
    && (forall j :: 0 <= j < |l.slices| ==> l.slices[j].family == l.myTypes[j].family && |l.myTypes[j].types| > 0)
    && Consecutive(l.slices, l.numParticles)
  }

  /** A count that succeeded with the length of `[start, stop)`. */
  predicate CountIs(r: Result<nat>, start: nat, stop: nat) {
    r.Success? && stop == start + r.value
  }

  /** Each slice is sized by its family's count. */
  predicate SizedBy(files: seq<Node>, sl: seq<FamilySlice>, mt: TypeMap)
    requires |sl| == |mt|
  {
    forall j :: 0 <= j < |sl| ==>
      sl[j].family == mt[j].family && CountIs(FamilyCount(files, mt[j].types), sl[j].start, sl[j].stop)
  }

  lemma {:induction false} SizedByAppend(files: seq<Node>, sl: seq<FamilySlice>, mt: TypeMap, s: FamilySlice, e: FamilyTypes)
    requires |sl| == |mt| && SizedBy(files, sl, mt)
    requires s.family == e.family && CountIs(FamilyCount(files, e.types), s.start, s.stop)
    ensures SizedBy(files, sl + [s], mt + [e])
  {
    var sl2, mt2 := sl + [s], mt + [e];
    forall j | 0 <= j < |sl2|
      ensures sl2[j].family == mt2[j].family && CountIs(FamilyCount(files, mt2[j].types), sl2[j].start, sl2[j].stop)
    {
      if j < |sl| {
        assert sl2[j] == sl[j] && mt2[j] == mt[j];
      }
    }
  }

  lemma {:induction false} ConsecutiveAppend(sl: seq<FamilySlice>, n: nat, s: FamilySlice)
    requires Consecutive(sl, n) && s.start == n <= s.stop
    ensures Consecutive(sl + [s], s.stop)
  {
    var t := sl + [s];
    assert forall j :: 0 <= j < |sl| ==> t[j] == sl[j];
  }

  /** One family adds its slice, from the previous end, sized by its
      count. */
  lemma {:induction false} SliceStepSpec(files: seq<Node>, acc: Slicing, e: FamilyTypes)
    requires |files| > 0 && |e.types| > 0 && SliceStep(files, acc, e).Success?
    ensures FamilyCount(files, e.types).Success?
    ensures SliceStep(files, acc, e).value.next == acc.next + FamilyCount(files, e.types).value
    ensures SliceStep(files, acc, e).value.slices == acc.slices + [FamilySlice(e.family, acc.next, SliceStep(files, acc, e).value.next)]
  {
  }

  lemma {:induction false} SliceFamiliesSpec(files: seq<Node>, mt: TypeMap)
    requires |files| > 0 && forall j :: 0 <= j < |mt| ==> |mt[j].types| > 0
    requires SliceFamilies(files, mt).Success?
    ensures var acc := SliceFamilies(files, mt).value;
      |acc.slices| == |mt| && Consecutive(acc.slices, acc.next) && SizedBy(files, acc.slices, mt)
  {
    if |mt| > 0 {
      var k := |mt| - 1;
      var front := mt[..k];
      SliceFamiliesSpec(files, front);
      var acc := SliceFamilies(files, front).value;
      assert SliceFamilies(files, mt) == SliceStep(files, acc, mt[k]);
      SliceStepSpec(files, acc, mt[k]);
      var r := SliceStep(files, acc, mt[k]).value;
      var s := FamilySlice(mt[k].family, acc.next, r.next);
      ConsecutiveAppend(acc.slices, acc.next, s);
      assert mt == front + [mt[k]];
      SizedByAppend(files, acc.slices, front, s, mt[k]);
    }
  }

  /** `d` is an array key under the family's last type in the first file. */
  predicate LastTypeKey(root: Node, e: FamilyTypes, d: string) {
    && |e.types| > 0
    && Child(root, e.types[|e.types| - 1]).Success?
    && ArrayKeys(Child(root, e.types[|e.types| - 1]).value).Success?
    && d in ArrayKeys(Child(root, e.types[|e.types| - 1]).value).value
  }

  lemma {:induction false} SliceStepKeys(files: seq<Node>, acc: Slicing, e: FamilyTypes, d: string)
    requires |files| > 0 && |e.types| > 0 && SliceStep(files, acc, e).Success?
    ensures d in SliceStep(files, acc, e).value.keys <==> d in acc.keys || LastTypeKey(files[0], e, d)
  {
  }

  /** The keys gathered by the slice loop are the union, over the kept
      families, of the array keys of each family's last type in the first
      file. */
  lemma {:induction false} SliceFamiliesKeys(files: seq<Node>, mt: TypeMap, d: string)
    requires |files| > 0 && forall j :: 0 <= j < |mt| ==> |mt[j].types| > 0
    requires SliceFamilies(files, mt).Success?
    ensures d in SliceFamilies(files, mt).value.keys <==> exists j :: 0 <= j < |mt| && LastTypeKey(files[0], mt[j], d)
  {
    if |mt| > 0 {
      var k := |mt| - 1;
      var front := mt[..k];
      SliceFamiliesKeys(files, front, d);
      var acc := SliceFamilies(files, front).value;
      var r := SliceFamilies(files, mt).value;
      assert r == SliceStep(files, acc, mt[k]).value;
      SliceStepKeys(files, acc, mt[k], d);
      assert forall j :: 0 <= j < k ==> front[j] == mt[j];
      ExistsStep(mt, e => LastTypeKey(files[0], e, d), d in acc.keys, d in r.keys);
    }
  }

  /** An element of `xs` satisfies `p` iff one of all but the last does
      or the last does. */
  lemma {:induction false} ExistsStep<T>(xs: seq<T>, p: T -> bool, front: bool, all: bool)
    requires |xs| > 0
    requires front <==> exists j :: 0 <= j < |xs| - 1 && p(xs[j])
    requires all <==> front || p(xs[|xs| - 1])
    ensures all <==> exists j :: 0 <= j < |xs| && p(xs[j])
  {
    if all && !front {
      assert p(xs[|xs| - 1]);
    }
  }

  /** The layout has one consecutive slice per kept family, sized by the
      family's particle count over all files. */
  lemma {:induction false} BuildLayoutSpec(files: seq<Node>, typeMap: TypeMap)
    requires BuildLayout(files, typeMap).Success?
    ensures LayoutOk(BuildLayout(files, typeMap).value)
    ensures var l := BuildLayout(files, typeMap).value; SizedBy(files, l.slices, l.myTypes)
    ensures |files| > 0 ==> BuildLayout(files, typeMap).value.myTypes == MyTypeMap(files[0], typeMap)
  {
    if |files| > 0 {
      var mt := MyTypeMap(files[0], typeMap);
      SliceFamiliesSpec(files, mt);
    }
  }

  /** The disk keys of the layout are the array keys of each kept
      family's last type in the first file. */
  lemma {:induction false} BuildLayoutKeys(files: seq<Node>, typeMap: TypeMap, d: string)
    requires |files| > 0 && BuildLayout(files, typeMap).Success?
    ensures var l := BuildLayout(files, typeMap).value;
      d in l.diskKeys <==> exists j :: 0 <= j < |l.myTypes| && LastTypeKey(files[0], l.myTypes[j], d)
  {
    var mt := MyTypeMap(files[0], typeMap);
    SliceFamiliesKeys(files, mt, d);
  }

  /** Every particle index below `_num_particles` lies in exactly one
      family slice. */
  lemma {:induction false} ConsecutiveCovers(sl: seq<FamilySlice>, n: nat, p: nat)
    requires Consecutive(sl, n) && p < n
    ensures exists j :: 0 <= j < |sl| && sl[j].start <= p < sl[j].stop
    ensures forall j, j2 :: 0 <= j < |sl| && 0 <= j2 < |sl| && sl[j].start <= p < sl[j].stop && sl[j2].start <= p < sl[j2].stop ==> j == j2
  {
    ConsecutiveOrdered(sl, n);
    var j := 0;
    while sl[j].stop <= p
      invariant 0 <= j < |sl| && sl[j].start <= p
      decreases |sl| - j
    {
      j := j + 1;
    }
  }

  /** Later slices start no earlier than earlier ones stop. */
  lemma {:induction false} ConsecutiveOrdered(sl: seq<FamilySlice>, n: nat)
    requires Consecutive(sl, n)
    ensures forall j, j2 :: 0 <= j < j2 < |sl| ==> sl[j].stop <= sl[j2].start
    ensures forall j :: 0 <= j < |sl| ==> sl[j].stop <= n
  {
    if |sl| > 1 {
      var k := |sl| - 1;
      var front := sl[..k];
      assert Consecutive(front, sl[k].start);
      ConsecutiveOrdered(front, sl[k].start);
      assert forall j :: 0 <= j < k ==> front[j] == sl[j];
    }
  }

  // The constructor's loops

  /** The inner filter loop of the constructor: `if x in self._hdf[0].keys()`. */
  method SelectTypes(root: Node, types: seq<string>) returns (mine: seq<string>)
    ensures mine == PresentTypes(root, types)
  {
    mine := [];
    for i := 0 to |types|
      invariant mine == PresentTypes(root, types[..i])
    {
      assert types[..i + 1][..i] == types[..i];
      if Child(root, types[i]).Success? {
        mine := mine + [types[i]];
      }
    }
    assert types[..|types|] == types;
  }

  /** The loop building `my_type_map`. */
  method SelectFamilies(root: Node, typeMap: TypeMap) returns (mt: TypeMap)
    ensures mt == MyTypeMap(root, typeMap)
  {
    mt := [];
    for i := 0 to |typeMap|
      invariant mt == MyTypeMap(root, typeMap[..i])
    {
      assert typeMap[..i + 1][..i] == typeMap[..i];
      var mine := SelectTypes(root, typeMap[i].types);
      if |mine| > 0 {
        mt := mt + [FamilyTypes(typeMap[i].family, mine)];
      }
    }
    assert typeMap[..|typeMap|] == typeMap;
  }

  lemma {:induction false} TypeCountFailsFrom(files: seq<Node>, name: string, j: nat)
    requires j <= |files| && TypeCount(files[..j], name).Failure?
    ensures TypeCount(files, name) == TypeCount(files[..j], name)
    decreases |files| - j
  {
    if j < |files| {
      var k := |files| - 1;
      assert files[..k][..j] == files[..j];
      TypeCountFailsFrom(files[..k], name, j);
    } else {
      assert files[..j] == files;
    }
  }

  lemma {:induction false} FamilyCountFailsFrom(files: seq<Node>, types: seq<string>, j: nat)
    requires j <= |types| && FamilyCount(files, types[..j]).Failure?
    ensures FamilyCount(files, types) == FamilyCount(files, types[..j])
    decreases |types| - j
  {
    if j < |types| {
      var k := |types| - 1;
      assert types[..k][..j] == types[..j];
      FamilyCountFailsFrom(files, types[..k], j);
    } else {
      assert types[..j] == types;
    }
  }

  lemma {:induction false} TypeCountNext(files: seq<Node>, name: string, i: nat)
    requires i < |files|
    ensures TypeCount(files[..i + 1], name) == Plus(TypeCount(files[..i], name), CoordCount(files[i], name))
  {
    assert files[..i + 1][..i] == files[..i];
  }

  lemma {:induction false} FamilyCountNext(files: seq<Node>, types: seq<string>, i: nat)
    requires i < |types|
    ensures FamilyCount(files, types[..i + 1]) == Plus(FamilyCount(files, types[..i]), TypeCount(files, types[i]))
  {
    assert types[..i + 1][..i] == types[..i];
  }

  /** `l += hdf[name]['Coordinates'].shape[0]` over the files. */
  method CountType(files: seq<Node>, name: string) returns (r: Result<nat>)
    ensures r == TypeCount(files, name)
  {
    var l := 0;
    for i := 0 to |files|
      invariant TypeCount(files[..i], name) == Success(l)
    {
      TypeCountNext(files, name, i);
      var c := CoordCount(files[i], name);
      if c.Failure? {
        TypeCountFailsFrom(files, name, i + 1);
        return Failure(c.error);
      }
      l := l + c.value;
    }
    assert files[..|files|] == files;
    r := Success(l);
  }

  /** The count loop over a family's types. */
  method CountFamily(files: seq<Node>, types: seq<string>) returns (r: Result<nat>)
    ensures r == FamilyCount(files, types)
  {
    var l := 0;
    for i := 0 to |types|
      invariant FamilyCount(files, types[..i]) == Success(l)
    {
      FamilyCountNext(files, types, i);
      var c := CountType(files, types[i]);
      if c.Failure? {
        FamilyCountFailsFrom(files, types, i + 1);
        return Failure(c.error);
      }
      l := l + c.value;
    }
    assert types[..|types|] == types;
    r := Success(l);
  }

  lemma {:induction false} SliceFamiliesFailsFrom(files: seq<Node>, mt: TypeMap, j: nat)
    requires |files| > 0 && forall i :: 0 <= i < |mt| ==> |mt[i].types| > 0
    requires j <= |mt| && SliceFamilies(files, mt[..j]).Failure?
    ensures SliceFamilies(files, mt) == SliceFamilies(files, mt[..j])
    decreases |mt| - j
  {
    if j < |mt| {
      var k := |mt| - 1;
      assert mt[..k][..j] == mt[..j];
      SliceFamiliesFailsFrom(files, mt[..k], j);
    } else {
      assert mt[..j] == mt;
    }
  }

  /** The body of the slice loop for one family. */
  method SliceStepOf(files: seq<Node>, acc: Slicing, e: FamilyTypes) returns (r: Result<Slicing>)
    requires |files| > 0 && |e.types| > 0
    ensures r == SliceStep(files, acc, e)
  {
    var l := CountFamily(files, e.types);
    if l.Failure? {
      return Failure(l.error);
    }
    var g := Child(files[0], e.types[|e.types| - 1]);
    if g.Failure? {
      return Failure(g.error);
    }
    var k := ArrayKeys(g.value);
    if k.Failure? {
      return Failure(k.error);
    }
    r := Success(Slicing(acc.slices + [FamilySlice(e.family, acc.next, acc.next + l.value)], acc.keys + AsSet(k.value), acc.next + l.value));
  }

  /** `GadgetHDFSnap.__init__` from the open files on: the type filter,
      then the slice loop. */
  method OpenLayout(files: seq<Node>, typeMap: TypeMap) returns (r: Result<Layout>)
    ensures r == BuildLayout(files, typeMap)
  {
    if |files| == 0 {
      for i := 0 to |typeMap|
        invariant forall i' :: 0 <= i' < i ==> |typeMap[i'].types| == 0
      {
        if |typeMap[i].types| > 0 {
          return Failure(IndexError);
        }
      }
      return Success(Layout([], [], {}, 0));
    }
    var mt := SelectFamilies(files[0], typeMap);
    var acc := Slicing([], {}, 0);
    for i := 0 to |mt|
      invariant SliceFamilies(files, mt[..i]) == Success(acc)
    {
      assert mt[..i + 1][..i] == mt[..i];
      var step := SliceStepOf(files, acc, mt[i]);
      if step.Failure? {
        SliceFamiliesFailsFrom(files, mt, i + 1);
        return Failure(step.error);
      }
      acc := step.value;
    }
    assert mt[..|mt|] == mt;
    r := Success(Layout(mt, acc.slices, acc.keys, acc.next));
  }

  // ---------------------------------------------------------------------
  // _family_has_loadable_array

  /** The position of a family in the type map (`None` when absent). */
  function FamilyIndex(mt: TypeMap, fam: string): (r: Option<nat>)
    ensures r.Some? ==> r.value < |mt| && mt[r.value].family == fam
  {
    if |mt| == 0 then None
    else if mt[0].family == fam then Some(0)
    else
      match FamilyIndex(mt[1..], fam)
      case None => None
      case Some(j) => Some(j + 1)
  }

  /** `self._my_type_map[fam]` (KeyError when absent). */
  function Lookup(mt: TypeMap, fam: string): Result<seq<string>> {
    match FamilyIndex(mt, fam)
    case None => Failure(KeyError)
    case Some(j) => Success(mt[j].types)
  }

  /** A family is found exactly when some entry carries its name, and the
      first such entry is the one found. */
  lemma {:induction false} FamilyIndexSpec(mt: TypeMap, fam: string)
    ensures FamilyIndex(mt, fam).None? <==> forall j :: 0 <= j < |mt| ==> mt[j].family != fam
    ensures FamilyIndex(mt, fam).Some? ==> forall j :: 0 <= j < FamilyIndex(mt, fam).value ==> mt[j].family != fam
  {
    if |mt| > 0 && mt[0].family != fam {
      FamilyIndexSpec(mt[1..], fam);
      assert forall j :: 0 < j < |mt| ==> mt[j] == mt[1..][j - 1];
    }
  }

  /** The loop over a family's types, returning False at the first type
      whose arrays lack the key. */
  function TypesHave(files: seq<Node>, types: seq<string>, key: string, subgroup: Option<string>): Result<bool> {
    if |types| == 0 then Success(true)
    else
      match AllParticleArrays(files, types[0], subgroup)
      case Failure(e) => Failure(e)
      case Success(ks) => if key !in ks then Success(false) else TypesHave(files, types[1..], key, subgroup)
  }

  /** Type `j` lists the key. */
  predicate TypeHas(files: seq<Node>, types: seq<string>, j: int, key: string, subgroup: Option<string>)
    requires 0 <= j < |types|
  {
    var r := AllParticleArrays(files, types[j], subgroup);
    r.Success? && key in r.value
  }

  /** The family can load the key iff every one of its types lists it. */
  lemma {:induction false} TypesHaveSpec(files: seq<Node>, types: seq<string>, key: string, subgroup: Option<string>)
    ensures TypesHave(files, types, key, subgroup) == Success(true) <==>
      forall j :: 0 <= j < |types| ==> TypeHas(files, types, j, key, subgroup)
  {
    if |types| > 0 {
      TypesHaveSpec(files, types[1..], key, subgroup);
      assert forall j :: 0 < j < |types| ==> TypeHas(files, types, j, key, subgroup) == TypeHas(files, types[1..], j - 1, key, subgroup);
      if !TypeHas(files, types, 0, key, subgroup) {
        assert TypesHave(files, types, key, subgroup) != Success(true);
      } else {
        assert TypesHave(files, types, key, subgroup) == TypesHave(files, types[1..], key, subgroup);
        var tail := types[1..];
        if forall j :: 0 <= j < |types| ==> TypeHas(files, types, j, key, subgroup) {
          forall j | 0 <= j < |tail| ensures TypeHas(files, tail, j, key, subgroup) {
            assert TypeHas(files, types, j + 1, key, subgroup);
          }
        }
      }
    }
  }

  /** The specific-family branch. */
  function FamilyHas(files: seq<Node>, mt: TypeMap, tr: string -> string, fam: string, name: string, subgroup: Option<string>): Result<bool> {
    match Lookup(mt, fam)
    case Failure(e) => Failure(e)
    case Success(ts) => TypesHave(files, ts, tr(name), subgroup)
  }

  /** `all([... for fam_x in self._family_slice])`: every family is
      evaluated (the list is built before `all` runs), and the first
      failure raises. */
  function AllFamilies(files: seq<Node>, mt: TypeMap, tr: string -> string, fams: seq<string>, name: string, subgroup: Option<string>): Result<bool> {
    if |fams| == 0 then Success(true)
    else
      match AllFamilies(files, mt, tr, fams[..|fams| - 1], name, subgroup)
      case Failure(e) => Failure(e)
      case Success(b) =>
        match FamilyHas(files, mt, tr, fams[|fams| - 1], name, subgroup)
        case Failure(e) => Failure(e)
        case Success(c) => Success(b && c)
  }

  /** The families of the layout, in order. */
  function Families(mt: TypeMap): (r: seq<string>)
    ensures |r| == |mt| && forall j :: 0 <= j < |mt| ==> r[j] == mt[j].family
  {
    seq(|mt|, j requires 0 <= j < |mt| => mt[j].family)
  }

  /** `_family_has_loadable_array(fam, name, subgroup)`: `mass` is always
      loadable (the header supplies it); otherwise the subgroup of the
      first file must exist, and then either one family or, for `None`,
      all of them are asked. */
  function HasLoadable(files: seq<Node>, mt: TypeMap, tr: string -> string, fam: Option<string>, name: string, subgroup: Option<string>): Result<bool> {
    if name == "mass" then Success(true)
    else if |files| == 0 then Failure(IndexError)
    else
      match InSubgroup(files[0], subgroup)
      case Failure(e) => Failure(e)
      case Success(_) =>
        if fam.None? then AllFamilies(files, mt, tr, Families(mt), name, subgroup)
        else FamilyHas(files, mt, tr, fam.value, name, subgroup)
  }

  /** All families can load it iff each one can. */
  lemma {:induction false} AllFamiliesSpec(files: seq<Node>, mt: TypeMap, tr: string -> string, fams: seq<string>, name: string, subgroup: Option<string>)
    ensures AllFamilies(files, mt, tr, fams, name, subgroup) == Success(true) <==>
      forall j :: 0 <= j < |fams| ==> FamilyHas(files, mt, tr, fams[j], name, subgroup) == Success(true)
  {
    if |fams| > 0 {
      var k := |fams| - 1;
      var front := fams[..k];
      AllFamiliesSpec(files, mt, tr, front, name, subgroup);
      assert forall j :: 0 <= j < k ==> front[j] == fams[j];
      var last := FamilyHas(files, mt, tr, fams[k], name, subgroup);
      var all := AllFamilies(files, mt, tr, front, name, subgroup);
      assert AllFamilies(files, mt, tr, fams, name, subgroup) == Success(true) <==>
        all == Success(true) && last == Success(true);
    }
  }

  /** With the subgroup present and a name other than `mass`, a family
      can load the array iff each of its types lists the translated name,
      and `None` asks that of every family of the layout. */
  lemma {:induction false} HasLoadableSpec(files: seq<Node>, mt: TypeMap, tr: string -> string, fam: Option<string>, name: string, subgroup: Option<string>)
    requires name != "mass" && |files| > 0 && InSubgroup(files[0], subgroup).Success?
    ensures fam.Some? && Lookup(mt, fam.value).Success? ==>
      (HasLoadable(files, mt, tr, fam, name, subgroup) == Success(true) <==>
       forall j :: 0 <= j < |Lookup(mt, fam.value).value| ==> TypeHas(files, Lookup(mt, fam.value).value, j, tr(name), subgroup))
    ensures fam.Some? && Lookup(mt, fam.value).Failure? ==> HasLoadable(files, mt, tr, fam, name, subgroup) == Failure(KeyError)
    ensures fam.None? ==>
      (HasLoadable(files, mt, tr, fam, name, subgroup) == Success(true) <==>
       forall j :: 0 <= j < |mt| ==> FamilyHas(files, mt, tr, mt[j].family, name, subgroup) == Success(true))
  {
    if fam.Some? {
      if Lookup(mt, fam.value).Success? {
        TypesHaveSpec(files, Lookup(mt, fam.value).value, tr(name), subgroup);
      }
    } else {
      AllFamiliesSpec(files, mt, tr, Families(mt), name, subgroup);
    }
  }

  // ---------------------------------------------------------------------
  // _load_array: finding a first dataset and its dimension

  /** The dataset the dimension is read from: the file it was found in,
      that file's (sub)group, the family's first type and the dataset. */
  datatype Found = Found(index: nat, hdf0: Node, type0: string, dset: Data)

  /** The `try` block of the search loop for one (sub)group. */
  function Attempt(hdf0: Node, mt: TypeMap, famx: string, tname: string): Result<(string, Data)> {
    match Lookup(mt, famx)
    case Failure(e) => Failure(e)
    case Success(ts) =>
      if |ts| == 0 then Failure(IndexError)
      else
        match Child(hdf0, ts[0])
        case Failure(e) => Failure(e)
        case Success(g) =>
          match HdfDataset(g, ts[0], hdf0, tname)
          case Failure(e) => Failure(e)
          case Success(d) => Success((ts[0], d))
  }

  /** `while not_loaded`: a KeyError moves on to the next file; running
      out of files is the IndexError of `self._hdf[i]`; the subgroup
      lookup is outside the `try`. */
  function Search(files: seq<Node>, subgroup: Option<string>, mt: TypeMap, famx: string, tname: string, i: nat): Result<Found>
    decreases |files| - i
  {
    if i >= |files| then Failure(IndexError)
    else
      match InSubgroup(files[i], subgroup)
      case Failure(e) => Failure(e)
      case Success(hdf0) =>
        match Attempt(hdf0, mt, famx, tname)
        case Failure(e) => if e == KeyError then Search(files, subgroup, mt, famx, tname, i + 1) else Failure(e)
        case Success((t0, d)) => Success(Found(i, hdf0, t0, d))
  }

  /** File `m` has its subgroup but the family's dataset lookup raises
      KeyError there. */
  predicate Skipped(files: seq<Node>, subgroup: Option<string>, mt: TypeMap, famx: string, tname: string, m: int)
    requires 0 <= m < |files|
  {
    InSubgroup(files[m], subgroup).Success? && Attempt(InSubgroup(files[m], subgroup).value, mt, famx, tname) == Failure(KeyError)
  }

  /** The search stops at the first file whose lookup does not raise
      KeyError; it fails with IndexError iff every file from `i` on raises
      KeyError. */
  lemma {:induction false} SearchSpec(files: seq<Node>, subgroup: Option<string>, mt: TypeMap, famx: string, tname: string, i: nat)
    ensures var r := Search(files, subgroup, mt, famx, tname, i);
      r.Success? ==>
        && i <= r.value.index < |files|
        && InSubgroup(files[r.value.index], subgroup) == Success(r.value.hdf0)
        && Attempt(r.value.hdf0, mt, famx, tname) == Success((r.value.type0, r.value.dset))
        && forall m :: i <= m < r.value.index ==> Skipped(files, subgroup, mt, famx, tname, m)
    ensures (forall m :: i <= m < |files| ==> Skipped(files, subgroup, mt, famx, tname, m)) ==>
      Search(files, subgroup, mt, famx, tname, i) == Failure(IndexError)
    decreases |files| - i
  {
    if i < |files| {
      SearchSpec(files, subgroup, mt, famx, tname, i + 1);
      if forall m :: i <= m < |files| ==> Skipped(files, subgroup, mt, famx, tname, m) {
        assert Skipped(files, subgroup, mt, famx, tname, i);
      }
    }
  }

  /** `len(hdf[t]['ParticleIDs'])`. */
  function ParticleCount(hdf: Node, t: string): Result<nat> {
    match Child(hdf, t)
    case Failure(e) => Failure(e)
    case Success(g) =>
      match Child(g, "ParticleIDs")
      case Failure(e) => Failure(e)
      case Success(ids) => Len(ids)
  }

  /** The dimension `dy` of the new array: the second extent of the found
      dataset (at most two are allowed), unless its length differs from
      the number of particle IDs, when it is their floor ratio. */
  function Dimension(f: Found): Result<nat> {
    match DataShape(f.dset)
    case Failure(e) => Failure(e)
    case Success(shape) =>
      if |shape| > 2 then Failure(AssertionError)
      else
        var dy := if |shape| > 1 then shape[1] else 1;
        match ParticleCount(f.hdf0, f.type0)
        case Failure(e) => Failure(e)
        case Success(np) =>
          match DataLen(f.dset)
          case Failure(e) => Failure(e)
          case Success(l) =>
            if l == np then Success(dy)
            else if np == 0 then Failure(ZeroDivisionError)
            else Success(l / np)
  }

  /** A table with one row per particle gives its row width; a
      one-dimensional one gives 1. */
  lemma {:induction false} DimensionOfTable(f: Found, np: nat, rest: seq<nat>)
    requires f.dset.Stored? && f.dset.node.Dataset? && f.dset.node.shape == [np] + rest && |rest| <= 1
    requires ParticleCount(f.hdf0, f.type0) == Success(np)
    ensures Dimension(f) == Success(if rest == [] then 1 else rest[0])
  {
    assert ([np] + rest)[0] == np;
  }

  /** A flat dataset three times as long as the particle list is read as
      three columns. */
  lemma {:induction false} DimensionOfFlat(f: Found, np: nat)
    requires f.dset.Stored? && f.dset.node.Dataset? && f.dset.node.shape == [3 * np] && np > 0
    requires ParticleCount(f.hdf0, f.type0) == Success(np)
    ensures Dimension(f) == Success(3)
  {
    assert DataLen(f.dset) == Success(3 * np);
    assert (3 * np) / np == 3;
  }

  /** A header mass gives a one-dimensional array when it covers every
      particle. */
  lemma {:induction false} DimensionOfDummy(f: Found, v: real, np: nat)
    requires f.dset == Dummy(v, np) && ParticleCount(f.hdf0, f.type0) == Success(np)
    ensures Dimension(f) == Success(1)
  {
  }

  // ---------------------------------------------------------------------
  // _load_array: the block copy

  /** What one (file, type) pair contributes: nothing (no particles), a
      dataset read directly, the header mass, or a dataset reshaped to
      `(len/3, 3)`. */
  datatype Block =
    | Skip
    | Direct(rows: nat, data: seq<real>)
    | Constant(rows: nat, value: real)
    | Reshaped(rows: nat, data: seq<real>)

  /** The body of the innermost loop up to the write: a particle count
      lookup that raises KeyError counts as zero particles. */
  function MakeBlock(hdf: Node, t: string, tname: string): Result<Block> {
    match ParticleCount(hdf, t)
    case Failure(e) => if e == KeyError then Success(Skip) else Failure(e)
    case Success(np) =>
      if np == 0 then Success(Skip)
      else
        match Child(hdf, t)
        case Failure(e) => Failure(e)
        case Success(g) =>
          match HdfDataset(g, t, hdf, tname)
          case Failure(e) => Failure(e)
          case Success(d) =>
            match DataLen(d)
            case Failure(e) => Failure(e)
            case Success(l) =>
              if l != np then
                // `dataset[:]` is a TypeError on the dummy and on a group
                match d
                case Dummy(_, _) => Failure(TypeError)
                case Stored(n) => if n.Group? then Failure(TypeError) else Success(Reshaped(l / 3, n.data))
              else
                match d
                case Dummy(v, _) => Success(Constant(l, v))
                case Stored(n) => if n.Group? then Failure(AttributeError) else Success(Direct(l, n.data))
  }

  /** The rows `[base, base + rows)` of the snapshot array that the
      family's view covers, `dy` values per row. */
  datatype View = View(base: nat, rows: nat, dy: nat)

  predicate Fits(v: View, n: nat) {
    Offset(v, v.rows) <= n
  }

  /** The number of values in `rows` rows. */
  function Width(v: View, rows: nat): nat {
    rows * v.dy
  }

  /** The flat position of row `i` of the view. */
  function Offset(v: View, i: nat): nat {
    (v.base + i) * v.dy
  }

  /** The array being filled, the family cursor `i0`, and the exception
      that ended the copy, if any. */
  datatype Filling = Filling(arr: seq<real>, i0: nat, error: Option<Error>)

  /** Python slice clipping of a bound to the view's length. */
  function Clip(i: nat, n: nat): nat {
    if i < n then i else n
  }

  /** `arr` with `xs` written from `off` on. */
  function Splice(arr: seq<real>, off: nat, xs: seq<real>): (r: seq<real>)
    requires off + |xs| <= |arr|
    ensures |r| == |arr|
  {
    arr[..off] + xs + arr[off + |xs|..]
  }

  function Const(x: real, n: nat): (r: seq<real>)
    ensures |r| == n
  {
    seq(n, _ => x)
  }

  /** numpy broadcasting of one three-value row over `m` rows. */
  function Tile(row: seq<real>, m: nat): (r: seq<real>)
    requires |row| == 3
    ensures |r| == m * 3
  {
    seq(m * 3, k requires 0 <= k < m * 3 => row[k % 3])
  }

  lemma {:induction false} MulLe(a: nat, b: nat, c: nat)
    requires a <= b
    ensures a * c <= b * c
  {
    assert b * c == a * c + (b - a) * c;
  }

  /** The row window `[lo, hi)` of a view lies inside the array. */
  lemma {:induction false} WindowFits(v: View, lo: nat, hi: nat, n: nat)
    requires lo <= hi <= v.rows && Fits(v, n)
    ensures Offset(v, lo) + Width(v, hi - lo) == Offset(v, hi) <= n
  {
    OffsetAfter(v.base + lo, hi - lo, v.dy, v.base + hi);
    MulLe(v.base + hi, v.base + v.rows, v.dy);
  }

  /** `self[f][array_name][i0:i1] = ...` for one block, `i1` being the
      cursor plus the block's rows; the slice is clipped to the view.
      `read_direct` needs as many values as the clipped window holds
      (TypeError otherwise); the reshaped block needs its three columns
      to match the array's and its rows to match the window or be a
      single row (ValueError otherwise). */
  function Place(c: Filling, v: View, b: Block): (r: Filling)
    requires Fits(v, |c.arr|)
    ensures |r.arr| == |c.arr|
  {
    match b
    case Skip => c
    case Direct(l, data) =>
      var lo, hi := Clip(c.i0, v.rows), Clip(c.i0 + l, v.rows);
      if |data| != Width(v, hi - lo) then Filling(c.arr, c.i0, Some(TypeError))
      else Write(c, v, lo, hi, data, c.i0 + l)
    case Constant(l, x) =>
      var lo, hi := Clip(c.i0, v.rows), Clip(c.i0 + l, v.rows);
      Write(c, v, lo, hi, Const(x, Width(v, hi - lo)), c.i0 + l)
    case Reshaped(rows, data) =>
      var lo, hi := Clip(c.i0, v.rows), Clip(c.i0 + rows, v.rows);
      if |data| != rows * 3 then Filling(c.arr, c.i0, Some(ValueError))
      else if v.dy != 3 || (rows != hi - lo && rows != 1) then Filling(c.arr, c.i0, Some(ValueError))
      else Write(c, v, lo, hi, if rows == hi - lo then data else Tile(data, hi - lo), c.i0 + rows)
  }

  /** The rows `[lo, hi)` of the view receive `xs` and the cursor moves
      to `next`. */
  function Write(c: Filling, v: View, lo: nat, hi: nat, xs: seq<real>, next: nat): (r: Filling)
    requires lo <= hi <= v.rows && |xs| == Width(v, hi - lo) && Fits(v, |c.arr|)
    ensures |r.arr| == |c.arr|
  {
    WindowFits(v, lo, hi, |c.arr|);
    Filling(Splice(c.arr, Offset(v, lo), xs), next, None)
  }

  /** What the copy needs besides the view: the subgroup and the name on
      disk. */
  datatype Source = Source(subgroup: Option<string>, tname: string)

  /** The block of one file for one type, the subgroup lookup included
      (it is outside the `try`). */
  function BlockOf(file: Node, t: string, src: Source): Result<Block> {
    match InSubgroup(file, src.subgroup)
    case Failure(e) => Failure(e)
    case Success(hdf) => MakeBlock(hdf, t, src.tname)
  }

  /** One pass of the innermost loop, given the file's block; once an
      exception is raised nothing more happens. */
  function Step(c: Filling, v: View, b: Result<Block>): (r: Filling)
    requires Fits(v, |c.arr|)
    ensures |r.arr| == |c.arr|
  {
    if c.error.Some? then c
    else
      match b
      case Failure(e) => Filling(c.arr, c.i0, Some(e))
      case Success(blk) => Place(c, v, blk)
  }

  /** The blocks of the files for one type, in file order. */
  function Blocks(files: seq<Node>, t: string, src: Source): (bs: seq<Result<Block>>)
    ensures |bs| == |files| && forall k :: 0 <= k < |files| ==> bs[k] == BlockOf(files[k], t, src)
  {
    seq(|files|, k requires 0 <= k < |files| => BlockOf(files[k], t, src))
  }

  /** The blocks each type contributes, file by file. The copy itself does
      not look into how they are read. */
  type BlockSource = string -> seq<Result<Block>>

  /** The blocks read from the files, under the source's subgroup and
      disk name. */
  function FileBlocks(files: seq<Node>, src: Source): BlockSource {
    t => Blocks(files, t, src)
  }

  /** The steps for a sequence of blocks. */
  function CopyBlocks(c: Filling, v: View, bs: seq<Result<Block>>): (r: Filling)
    requires Fits(v, |c.arr|)
    ensures |r.arr| == |c.arr|
  {
    if |bs| == 0 then c
    else Step(CopyBlocks(c, v, bs[..|bs| - 1]), v, bs[|bs| - 1])
  }

  /** `for hdf in self._hdf` for one type. */
  function CopyFiles(c: Filling, v: View, files: seq<Node>, t: string, src: Source): (r: Filling)
    requires Fits(v, |c.arr|)
    ensures |r.arr| == |c.arr|
  {
    CopyBlocks(c, v, Blocks(files, t, src))
  }

  /** `for t in self._my_type_map[f]` for one family. */
  function CopyTypes(c: Filling, v: View, types: seq<string>, blocks: BlockSource): (r: Filling)
    requires Fits(v, |c.arr|)
    ensures |r.arr| == |c.arr|
  {
    if |types| == 0 then c
    else CopyBlocks(CopyTypes(c, v, types[..|types| - 1], blocks), v, blocks(types[|types| - 1]))
  }

  /** One family to fill: its view of the array and its types. */
  datatype FamilyJob = FamilyJob(view: View, types: seq<string>)

  predicate JobsFit(jobs: seq<FamilyJob>, n: nat) {
    forall j :: 0 <= j < |jobs| ==> Fits(jobs[j].view, n)
  }

  /** `for f in fams`: each family starts its cursor at 0. */
  function CopyFamilies(arr: seq<real>, jobs: seq<FamilyJob>, blocks: BlockSource): (r: Filling)
    requires JobsFit(jobs, |arr|)
    ensures |r.arr| == |arr|
  {
    if |jobs| == 0 then Filling(arr, 0, None)
    else
      var c := CopyFamilies(arr, jobs[..|jobs| - 1], blocks);
      var job := jobs[|jobs| - 1];
      if c.error.Some? then c
      else CopyTypes(Filling(c.arr, 0, None), job.view, job.types, blocks)
  }

  // ---------------------------------------------------------------------
  // What the copy writes

  /** `a` and `b` agree outside `[lo, hi)`. */
  predicate SameOutside(a: seq<real>, b: seq<real>, lo: int, hi: int) {
    |a| == |b| && forall k :: 0 <= k < |a| && !(lo <= k < hi) ==> a[k] == b[k]
  }

  lemma {:induction false} SpliceAt(arr: seq<real>, off: nat, xs: seq<real>, k: nat)
    requires off + |xs| <= |arr| && k < |arr|
    ensures Splice(arr, off, xs)[k] == if off <= k < off + |xs| then xs[k - off] else arr[k]
  {
    var r := Splice(arr, off, xs);
    if k < off {
      assert r[k] == arr[..off][k];
    } else if k < off + |xs| {
      assert r[k] == (arr[..off] + xs)[k];
    } else {
      assert r[k] == arr[off + |xs|..][k - off - |xs|];
    }
  }

  lemma {:induction false} SpliceOutside(arr: seq<real>, off: nat, xs: seq<real>)
    requires off + |xs| <= |arr|
    ensures SameOutside(Splice(arr, off, xs), arr, off, off + |xs|)
  {
    forall k | 0 <= k < |arr| && !(off <= k < off + |xs|)
      ensures Splice(arr, off, xs)[k] == arr[k]
    {
      SpliceAt(arr, off, xs, k);
    }
  }

  /** Two adjacent writes are one write of both. */
  lemma {:induction false} SpliceSplice(arr: seq<real>, off: nat, xs: seq<real>, ys: seq<real>)
    requires off + |xs| + |ys| <= |arr|
    ensures Splice(Splice(arr, off, xs), off + |xs|, ys) == Splice(arr, off, xs + ys)
  {
    var a := Splice(Splice(arr, off, xs), off + |xs|, ys);
    var b := Splice(arr, off, xs + ys);
    forall k | 0 <= k < |arr| ensures a[k] == b[k] {
      SpliceAt(Splice(arr, off, xs), off + |xs|, ys, k);
      SpliceAt(arr, off, xs, k);
      SpliceAt(arr, off, xs + ys, k);
    }
  }

  /** A block placed into a view changes nothing outside the view's rows. */
  lemma {:induction false} PlaceFrame(c: Filling, v: View, b: Block)
    requires Fits(v, |c.arr|)
    ensures SameOutside(Place(c, v, b).arr, c.arr, Offset(v, 0), Offset(v, v.rows))
  {
    var r := Place(c, v, b);
    if r.arr != c.arr {
      var lo := Clip(c.i0, v.rows);
      var hi := Clip(c.i0 + b.rows, v.rows);
      var off := Offset(v, lo);
      WindowFits(v, lo, hi, |c.arr|);
      MulLe(v.base, v.base + lo, v.dy);
      MulLe(v.base + hi, v.base + v.rows, v.dy);
      var xs :| |xs| == Width(v, hi - lo) && r.arr == Splice(c.arr, off, xs);
      SpliceOutside(c.arr, off, xs);
    }
  }

  lemma {:induction false} StepFrame(c: Filling, v: View, b: Result<Block>)
    requires Fits(v, |c.arr|)
    ensures SameOutside(Step(c, v, b).arr, c.arr, Offset(v, 0), Offset(v, v.rows))
  {
    if c.error.None? && b.Success? {
      PlaceFrame(c, v, b.value);
    }
  }

  lemma {:induction false} CopyBlocksFrame(c: Filling, v: View, bs: seq<Result<Block>>)
    requires Fits(v, |c.arr|)
    ensures SameOutside(CopyBlocks(c, v, bs).arr, c.arr, Offset(v, 0), Offset(v, v.rows))
  {
    if |bs| > 0 {
      var k := |bs| - 1;
      CopyBlocksFrame(c, v, bs[..k]);
      StepFrame(CopyBlocks(c, v, bs[..k]), v, bs[k]);
    }
  }

  /** A family's copy writes only inside its own view. */
  lemma {:induction false} CopyTypesFrame(c: Filling, v: View, types: seq<string>, blocks: BlockSource)
    requires Fits(v, |c.arr|)
    ensures SameOutside(CopyTypes(c, v, types, blocks).arr, c.arr, Offset(v, 0), Offset(v, v.rows))
  {
    if |types| > 0 {
      var k := |types| - 1;
      CopyTypesFrame(c, v, types[..k], blocks);
      CopyBlocksFrame(CopyTypes(c, v, types[..k], blocks), v, blocks(types[k]));
    }
  }

  function SumNat(ls: seq<nat>): nat {
    if |ls| == 0 then 0 else SumNat(ls[..|ls| - 1]) + ls[|ls| - 1]
  }

  function Flatten(ds: seq<seq<real>>): seq<real> {
    if |ds| == 0 then [] else Flatten(ds[..|ds| - 1]) + ds[|ds| - 1]
  }

  /** Block `k` is read directly, `ls[k]` rows holding `ds[k]` at `dy`
      values per row, or is skipped (no particles: no rows, no values). */
  predicate AllDirect(bs: seq<Result<Block>>, ls: seq<nat>, ds: seq<seq<real>>, dy: nat) {
    && |ls| == |bs| && |ds| == |bs|
    && forall k :: 0 <= k < |bs| ==> IsDirect(bs[k], ls[k], ds[k], dy)
  }

  predicate IsDirect(b: Result<Block>, l: nat, d: seq<real>, dy: nat) {
    (b == Success(Direct(l, d)) || (b == Success(Skip) && l == 0 && d == [])) && |d| == l * dy
  }

  lemma {:induction false} AllDirectPrefix(bs: seq<Result<Block>>, ls: seq<nat>, ds: seq<seq<real>>, dy: nat, k: nat)
    requires AllDirect(bs, ls, ds, dy) && k <= |bs|
    ensures AllDirect(bs[..k], ls[..k], ds[..k], dy)
  {
    forall j | 0 <= j < k
      ensures IsDirect(bs[..k][j], ls[..k][j], ds[..k][j], dy)
    {
      assert bs[..k][j] == bs[j] && ls[..k][j] == ls[j] && ds[..k][j] == ds[j];
    }
  }

  lemma {:induction false} FlattenLength(ds: seq<seq<real>>, ls: seq<nat>, dy: nat)
    requires |ds| == |ls| && forall k :: 0 <= k < |ds| ==> |ds[k]| == ls[k] * dy
    ensures |Flatten(ds)| == SumNat(ls) * dy
  {
    if |ds| > 0 {
      var k := |ds| - 1;
      assert forall j :: 0 <= j < k ==> ds[..k][j] == ds[j] && ls[..k][j] == ls[j];
      FlattenLength(ds[..k], ls[..k], dy);
      OffsetAfter(SumNat(ls[..k]), ls[k], dy, SumNat(ls));
    }
  }

  lemma {:induction false} OffsetAfter(a: nat, b: nat, dy: nat, ab: nat)
    requires ab == a + b
    ensures ab * dy == a * dy + b * dy
  {
  }

  /** A direct block that fits in the view is written at the cursor and
      moves it by its rows. */
  lemma {:induction false} StepDirect(c: Filling, v: View, b: Result<Block>, l: nat, data: seq<real>)
    requires Fits(v, |c.arr|) && c.error.None? && c.i0 + l <= v.rows && IsDirect(b, l, data, v.dy)
    ensures Offset(v, c.i0) + |data| <= |c.arr|
    ensures Step(c, v, b) == Filling(Splice(c.arr, Offset(v, c.i0), data), c.i0 + l, None)
  {
    WindowFits(v, c.i0, c.i0 + l, |c.arr|);
    if b == Success(Skip) {
      var o := Offset(v, c.i0);
      assert c.arr[..o] + [] + c.arr[o..] == c.arr;
    }
  }

  /** Direct blocks whose rows all fit in the view are copied one after
      the other from the cursor on, in order. */
  lemma {:induction false} CopyBlocksDirect(c: Filling, v: View, bs: seq<Result<Block>>, ls: seq<nat>, ds: seq<seq<real>>)
    requires Fits(v, |c.arr|) && c.error.None?
    requires AllDirect(bs, ls, ds, v.dy) && c.i0 + SumNat(ls) <= v.rows
    ensures Offset(v, c.i0) + |Flatten(ds)| <= |c.arr|
    ensures CopyBlocks(c, v, bs) == Filling(Splice(c.arr, Offset(v, c.i0), Flatten(ds)), c.i0 + SumNat(ls), None)
  {
    var o := Offset(v, c.i0);
    FlattenLength(ds, ls, v.dy);
    WindowFits(v, c.i0, c.i0 + SumNat(ls), |c.arr|);
    if |bs| == 0 {
      assert c.arr[..o] + [] + c.arr[o..] == c.arr;
    } else {
      var k := |bs| - 1;
      AllDirectPrefix(bs, ls, ds, v.dy, k);
      CopyBlocksDirect(c, v, bs[..k], ls[..k], ds[..k]);
      CopyBlocksDirectStep(c, v, bs, ls, ds);
    }
  }

  lemma {:induction false} CopyBlocksDirectStep(c: Filling, v: View, bs: seq<Result<Block>>, ls: seq<nat>, ds: seq<seq<real>>)
    requires Fits(v, |c.arr|) && c.error.None? && |bs| > 0
    requires AllDirect(bs, ls, ds, v.dy) && c.i0 + SumNat(ls) <= v.rows
    requires var k := |bs| - 1;
      && Offset(v, c.i0) + |Flatten(ds[..k])| <= |c.arr|
      && CopyBlocks(c, v, bs[..k]) ==
         Filling(Splice(c.arr, Offset(v, c.i0), Flatten(ds[..k])), c.i0 + SumNat(ls[..k]), None)
    requires Offset(v, c.i0) + |Flatten(ds)| <= |c.arr|
    ensures CopyBlocks(c, v, bs) == Filling(Splice(c.arr, Offset(v, c.i0), Flatten(ds)), c.i0 + SumNat(ls), None)
  {
    var k := |bs| - 1;
    var o := Offset(v, c.i0);
    var prev := CopyBlocks(c, v, bs[..k]);
    var f := Flatten(ds[..k]);
    assert forall j :: 0 <= j < k ==> ds[..k][j] == ds[j] && ls[..k][j] == ls[j];
    FlattenLength(ds[..k], ls[..k], v.dy);
    StepDirect(prev, v, bs[k], ls[k], ds[k]);
    OffsetAfter(v.base + c.i0, SumNat(ls[..k]), v.dy, v.base + prev.i0);
    var o2 := Offset(v, prev.i0);
    assert o2 == o + |f|;
    var r := CopyBlocks(c, v, bs);
    assert r == Filling(Splice(prev.arr, o2, ds[k]), prev.i0 + ls[k], None);
    SpliceSplice(c.arr, o, f, ds[k]);
    assert Flatten(ds) == f + ds[k];
  }

  /** The files of one type whose blocks are all direct and fit in the
      view fill it consecutively from the cursor, in file order. */
  lemma {:induction false} CopyFilesDirect(c: Filling, v: View, files: seq<Node>, t: string, src: Source, ls: seq<nat>, ds: seq<seq<real>>)
    requires Fits(v, |c.arr|) && c.error.None?
    requires AllDirect(Blocks(files, t, src), ls, ds, v.dy) && c.i0 + SumNat(ls) <= v.rows
    ensures Offset(v, c.i0) + |Flatten(ds)| <= |c.arr|
    ensures CopyFiles(c, v, files, t, src) == Filling(Splice(c.arr, Offset(v, c.i0), Flatten(ds)), c.i0 + SumNat(ls), None)
  {
    CopyBlocksDirect(c, v, Blocks(files, t, src), ls, ds);
  }

  /** Two runs of blocks in a row are one run. */
  lemma {:induction false} CopyBlocksAppend(c: Filling, v: View, bs: seq<Result<Block>>, cs: seq<Result<Block>>)
    requires Fits(v, |c.arr|)
    ensures CopyBlocks(c, v, bs + cs) == CopyBlocks(CopyBlocks(c, v, bs), v, cs)
    decreases |cs|
  {
    if |cs| == 0 {
      assert bs + cs == bs;
    } else {
      var k := |cs| - 1;
      CopyBlocksAppend(c, v, bs, cs[..k]);
      assert (bs + cs)[..|bs + cs| - 1] == bs + cs[..k];
    }
  }

  /** Once an exception is raised, no later block changes anything. */
  lemma {:induction false} CopyBlocksErrored(c: Filling, v: View, bs: seq<Result<Block>>)
    requires Fits(v, |c.arr|) && c.error.Some?
    ensures CopyBlocks(c, v, bs) == c
  {
    if |bs| > 0 {
      CopyBlocksErrored(c, v, bs[..|bs| - 1]);
    }
  }

  /** The copy of one type ends with the first exception. */
  lemma {:induction false} CopyBlocksStopped(c: Filling, v: View, bs: seq<Result<Block>>, k: nat)
    requires Fits(v, |c.arr|) && k <= |bs| && CopyBlocks(c, v, bs[..k]).error.Some?
    ensures CopyBlocks(c, v, bs) == CopyBlocks(c, v, bs[..k])
  {
    assert bs == bs[..k] + bs[k..];
    CopyBlocksAppend(c, v, bs[..k], bs[k..]);
    CopyBlocksErrored(CopyBlocks(c, v, bs[..k]), v, bs[k..]);
  }

  /** A family's copy ends with the first exception. */
  lemma {:induction false} CopyTypesStopped(c: Filling, v: View, types: seq<string>, blocks: BlockSource, k: nat)
    requires Fits(v, |c.arr|) && k <= |types| && CopyTypes(c, v, types[..k], blocks).error.Some?
    ensures CopyTypes(c, v, types, blocks) == CopyTypes(c, v, types[..k], blocks)
  {
    if k < |types| {
      var n := |types| - 1;
      assert types[..n][..k] == types[..k];
      CopyTypesStopped(c, v, types[..n], blocks, k);
      CopyBlocksErrored(CopyTypes(c, v, types[..n], blocks), v, blocks(types[n]));
    } else {
      assert types[..k] == types;
    }
  }

  /** The blocks of all the family's types, type by type, files in order
      within each type. */
  function TypeBlocks(types: seq<string>, blocks: BlockSource): seq<Result<Block>> {
    if |types| == 0 then [] else TypeBlocks(types[..|types| - 1], blocks) + blocks(types[|types| - 1])
  }

  /** The cursor is not reset between types: a family's copy is one run
      over its types' blocks. */
  lemma {:induction false} CopyTypesBlocks(c: Filling, v: View, types: seq<string>, blocks: BlockSource)
    requires Fits(v, |c.arr|)
    ensures CopyTypes(c, v, types, blocks) == CopyBlocks(c, v, TypeBlocks(types, blocks))
  {
    if |types| > 0 {
      var k := |types| - 1;
      CopyTypesBlocks(c, v, types[..k], blocks);
      CopyBlocksAppend(c, v, TypeBlocks(types[..k], blocks), blocks(types[k]));
    }
  }

  // ---------------------------------------------------------------------
  // _load_array: the whole

  /** The array `_create_array` makes, `rows` rows long, and the families
      copied into it. */
  datatype Plan = Plan(rows: nat, jobs: seq<FamilyJob>)

  /** The number of values in `rows` rows of `dy`. */
  function Cells(rows: nat, dy: nat): nat {
    rows * dy
  }

  /** Family `j`'s view of the snapshot array: its slice's rows. */
  function SliceJob(l: Layout, j: nat, dy: nat): FamilyJob
    requires LayoutOk(l) && j < |l.slices|
  {
    var s := l.slices[j];
    FamilyJob(View(s.start, s.stop - s.start, dy), l.myTypes[j].types)
  }

  /** The views of all the family slices, in order. */
  function SliceJobs(l: Layout, dy: nat): (r: seq<FamilyJob>)
    requires LayoutOk(l)
    ensures |r| == |l.slices| && forall j :: 0 <= j < |l.slices| ==> r[j] == SliceJob(l, j, dy)
  {
    seq(|l.slices|, j requires 0 <= j < |l.slices| => SliceJob(l, j, dy))
  }

  /** `fam is None`: the snapshot array, filled family by family through
      its slices; otherwise the family's own array, filled from row 0. */
  function MakePlan(l: Layout, fam: Option<string>, dy: nat): Result<Plan>
    requires LayoutOk(l)
  {
    match fam
    case None => Success(Plan(l.numParticles, SliceJobs(l, dy)))
    case Some(f) =>
      match FamilyIndex(l.myTypes, f)
      case None => Failure(KeyError)
      case Some(j) =>
        var n := l.slices[j].stop - l.slices[j].start;
        Success(Plan(n, [FamilyJob(View(0, n, dy), l.myTypes[j].types)]))
  }

  lemma {:induction false} JobsFitPrefix(jobs: seq<FamilyJob>, n: nat, m: nat)
    requires JobsFit(jobs, n) && m <= |jobs|
    ensures JobsFit(jobs[..m], n)
  {
    assert forall j :: 0 <= j < m ==> jobs[..m][j] == jobs[j];
  }

  /** Every view of the plan lies inside the array it creates. */
  lemma {:induction false} PlanFits(l: Layout, fam: Option<string>, dy: nat)
    requires LayoutOk(l) && MakePlan(l, fam, dy).Success?
    ensures var p := MakePlan(l, fam, dy).value; JobsFit(p.jobs, Cells(p.rows, dy))
  {
    var p := MakePlan(l, fam, dy).value;
    if fam.None? {
      ConsecutiveOrdered(l.slices, l.numParticles);
      forall j | 0 <= j < |p.jobs| ensures Fits(p.jobs[j].view, Cells(p.rows, dy)) {
        MulLe(l.slices[j].stop, l.numParticles, dy);
      }
    }
  }

  /** The views follow one another without overlapping. */
  predicate Ordered(jobs: seq<FamilyJob>) {
    forall a, b :: 0 <= a < b < |jobs| ==> End(jobs[a]) <= Offset(jobs[b].view, 0)
  }

  /** The flat position just past a family's view. */
  function End(job: FamilyJob): nat {
    Offset(job.view, job.view.rows)
  }

  /** For the whole snapshot, family `j` covers exactly the values of
      slice `j`'s particles, and the families' views are in order. */
  lemma {:induction false} PlanSlices(l: Layout, dy: nat)
    requires LayoutOk(l)
    ensures var p := MakePlan(l, None, dy).value;
      && |p.jobs| == |l.slices|
      && (forall j :: 0 <= j < |p.jobs| ==>
            Offset(p.jobs[j].view, 0) == Cells(l.slices[j].start, dy) && End(p.jobs[j]) == Cells(l.slices[j].stop, dy))
      && Ordered(p.jobs)
  {
    var p := MakePlan(l, None, dy).value;
    ConsecutiveOrdered(l.slices, l.numParticles);
    forall a, b | 0 <= a < b < |p.jobs| ensures End(p.jobs[a]) <= Offset(p.jobs[b].view, 0) {
      MulLe(l.slices[a].stop, l.slices[b].start, dy);
    }
  }

  /** With the views in order, copying later families leaves each earlier
      family's values as its own copy left them. */
  lemma {:induction false} CopyFamiliesKeeps(arr: seq<real>, jobs: seq<FamilyJob>, blocks: BlockSource, j: nat, m: nat)
    requires JobsFit(jobs, |arr|) && Ordered(jobs) && j < m <= |jobs|
    ensures JobsFit(jobs[..m], |arr|) && JobsFit(jobs[..j + 1], |arr|)
    ensures var a := CopyFamilies(arr, jobs[..m], blocks).arr;
      var b := CopyFamilies(arr, jobs[..j + 1], blocks).arr;
      forall k :: Offset(jobs[j].view, 0) <= k < End(jobs[j]) ==> a[k] == b[k]
  {
    JobsFitPrefix(jobs, |arr|, m);
    JobsFitPrefix(jobs, |arr|, j + 1);
    if m > j + 1 {
      var n := m - 1;
      JobsFitPrefix(jobs, |arr|, n);
      CopyFamiliesKeeps(arr, jobs, blocks, j, n);
      var c := CopyFamilies(arr, jobs[..n], blocks);
      var a := CopyFamilies(arr, jobs[..m], blocks);
      assert SameOutside(a.arr, c.arr, Offset(jobs[n].view, 0), End(jobs[n])) by {
        assert jobs[..m][..n] == jobs[..n];
        if c.error.None? {
          CopyTypesFrame(Filling(c.arr, 0, None), jobs[n].view, jobs[n].types, blocks);
        }
      }
      assert End(jobs[j]) <= Offset(jobs[n].view, 0);
    } else {
      assert jobs[..m] == jobs[..j + 1];
    }
  }

  /** What `_load_array` leaves behind: no array when it raises before
      `_create_array`; otherwise the new array's dimension and values and
      the exception, if any, that stopped the copy part-way. */
  datatype LoadResult = NotCreated(raised: Error) | Created(dim: nat, values: seq<real>, error: Option<Error>)

  /** `famx`: the family asked for, or the first family slice. */
  function FirstFamily(l: Layout, fam: Option<string>): Result<string> {
    match fam
    case Some(f) => Success(f)
    case None => if |l.slices| == 0 then Failure(IndexError) else Success(l.slices[0].family)
  }

  /** `_load_array(array_name, fam, subgroup)`: the loadable check (IOError
      when it says no), the search for a first dataset, the dimension,
      then the new zero-filled array and the copy into it. */
  function Loaded(files: seq<Node>, l: Layout, tr: string -> string, name: string, fam: Option<string>, subgroup: Option<string>): LoadResult
    requires LayoutOk(l)
  {
    match HasLoadable(files, l.myTypes, tr, fam, name, subgroup)
    case Failure(e) => NotCreated(e)
    case Success(ok) =>
      if !ok then NotCreated(IOError)
      else
        match FirstFamily(l, fam)
        case Failure(e) => NotCreated(e)
        case Success(famx) =>
          match Search(files, subgroup, l.myTypes, famx, tr(name), 0)
          case Failure(e) => NotCreated(e)
          case Success(found) =>
            match Dimension(found)
            case Failure(e) => NotCreated(e)
            case Success(dy) => Fill(files, l, fam, dy, Source(subgroup, tr(name)))
  }

  /** From `_create_array` on: a zero-filled array of `dy` values per row,
      then the families' copies. */
  function Fill(files: seq<Node>, l: Layout, fam: Option<string>, dy: nat, src: Source): LoadResult
    requires LayoutOk(l)
  {
    match MakePlan(l, fam, dy)
    case Failure(e) => NotCreated(e)
    case Success(p) =>
      PlanFits(l, fam, dy);
      var c := CopyFamilies(Const(0.0, Cells(p.rows, dy)), p.jobs, FileBlocks(files, src));
      Created(dy, c.arr, c.error)
  }

  /** The rows of the array `_load_array` creates: the snapshot's
      particles, or the family's. */
  function Rows(l: Layout, fam: Option<string>): nat
    requires LayoutOk(l)
  {
    match fam
    case None => l.numParticles
    case Some(f) =>
      match FamilyIndex(l.myTypes, f)
      case None => 0
      case Some(j) => l.slices[j].stop - l.slices[j].start
  }

  /** A negative loadable check is an IOError. The array is created only
      after the loadable check passed and the search found a first dataset
      whose dimension it takes. */
  lemma {:induction false} LoadedCreated(files: seq<Node>, l: Layout, tr: string -> string, name: string, fam: Option<string>, subgroup: Option<string>)
    requires LayoutOk(l)
    ensures HasLoadable(files, l.myTypes, tr, fam, name, subgroup) == Success(false) ==>
      Loaded(files, l, tr, name, fam, subgroup) == NotCreated(IOError)
    ensures var r := Loaded(files, l, tr, name, fam, subgroup);
      r.Created? ==>
        && HasLoadable(files, l.myTypes, tr, fam, name, subgroup) == Success(true)
        && FirstFamily(l, fam).Success?
        && Search(files, subgroup, l.myTypes, FirstFamily(l, fam).value, tr(name), 0).Success?
        && Dimension(Search(files, subgroup, l.myTypes, FirstFamily(l, fam).value, tr(name), 0).value) == Success(r.dim)
        && r == Fill(files, l, fam, r.dim, Source(subgroup, tr(name)))
  {
  }

  /** The new array holds `dy` values per particle of the snapshot or of
      the family. */
  lemma {:induction false} FillSize(files: seq<Node>, l: Layout, fam: Option<string>, dy: nat, src: Source)
    requires LayoutOk(l)
    ensures var r := Fill(files, l, fam, dy, src);
      r.Created? ==> r.dim == dy && |r.values| == Cells(Rows(l, fam), dy)
    ensures Fill(files, l, fam, dy, src).NotCreated? <==> fam.Some? && FamilyIndex(l.myTypes, fam.value).None?
  {
  }

  /** Once a family's copy raises, no later family is copied: a copy that
      ends without an exception had none in any prefix. */
  lemma {:induction false} CopyFamiliesNoError(arr: seq<real>, jobs: seq<FamilyJob>, blocks: BlockSource, m: nat)
    requires JobsFit(jobs, |arr|) && m <= |jobs| && CopyFamilies(arr, jobs, blocks).error.None?
    ensures JobsFit(jobs[..m], |arr|) && CopyFamilies(arr, jobs[..m], blocks).error.None?
    decreases |jobs|
  {
    JobsFitPrefix(jobs, |arr|, m);
    if m < |jobs| {
      var k := |jobs| - 1;
      JobsFitPrefix(jobs, |arr|, k);
      CopyFamiliesNoError(arr, jobs[..k], blocks, m);
      assert jobs[..k][..m] == jobs[..m];
    } else {
      assert jobs[..m] == jobs;
    }
  }

  /** The copy of the families ends with the first exception. */
  lemma {:induction false} CopyFamiliesStopped(arr: seq<real>, jobs: seq<FamilyJob>, blocks: BlockSource, k: nat)
    requires JobsFit(jobs, |arr|) && k <= |jobs| && JobsFit(jobs[..k], |arr|) && CopyFamilies(arr, jobs[..k], blocks).error.Some?
    ensures CopyFamilies(arr, jobs, blocks) == CopyFamilies(arr, jobs[..k], blocks)
  {
    if k < |jobs| {
      var n := |jobs| - 1;
      JobsFitPrefix(jobs, |arr|, n);
      assert jobs[..n][..k] == jobs[..k];
      CopyFamiliesStopped(arr, jobs[..n], blocks, k);
    } else {
      assert jobs[..k] == jobs;
    }
  }

  /** A family array whose types' blocks are all read directly (or
      skipped) and fill the family exactly is their values in type order,
      files in order within each type. */
  lemma {:induction false} FillFamilyDirect(files: seq<Node>, l: Layout, f: string, dy: nat, src: Source, j: nat, ls: seq<nat>, ds: seq<seq<real>>)
    requires LayoutOk(l) && FamilyIndex(l.myTypes, f) == Some(j)
    requires AllDirect(TypeBlocks(l.myTypes[j].types, FileBlocks(files, src)), ls, ds, dy)
    requires SumNat(ls) == l.slices[j].stop - l.slices[j].start
    ensures Fill(files, l, Some(f), dy, src) == Created(dy, Flatten(ds), None)
  {
    var n := l.slices[j].stop - l.slices[j].start;
    var job := FamilyJob(View(0, n, dy), l.myTypes[j].types);
    assert MakePlan(l, Some(f), dy) == Success(Plan(n, [job]));
    CopyWholeDirect(job, FileBlocks(files, src), ls, ds);
  }

  /** One family covering a fresh zero array, whose blocks are all read
      directly and fill it exactly, leaves their values in order. */
  lemma {:induction false} CopyWholeDirect(job: FamilyJob, blocks: BlockSource, ls: seq<nat>, ds: seq<seq<real>>)
    requires job.view.base == 0 && job.view.rows == SumNat(ls)
    requires AllDirect(TypeBlocks(job.types, blocks), ls, ds, job.view.dy)
    ensures JobsFit([job], Cells(job.view.rows, job.view.dy))
    ensures CopyFamilies(Const(0.0, Cells(job.view.rows, job.view.dy)), [job], blocks) == Filling(Flatten(ds), SumNat(ls), None)
  {
    var v := job.view;
    var z := Const(0.0, Cells(v.rows, v.dy));
    assert Fits(v, |z|);
    assert CopyFamilies(z, [job], blocks) == Filling(Splice(z, 0, Flatten(ds)), SumNat(ls), None) by {
      CopyFamiliesOne(z, job, blocks);
      CopyTypesDirect(Filling(z, 0, None), v, job.types, blocks, ls, ds);
    }
    assert |Flatten(ds)| == |z| by {
      FlattenLength(ds, ls, v.dy);
    }
    SpliceWhole(z, Flatten(ds));
  }

  lemma {:induction false} SpliceWhole(arr: seq<real>, xs: seq<real>)
    requires |xs| == |arr|
    ensures Splice(arr, 0, xs) == xs
  {
    assert arr[..0] + xs + arr[|xs|..] == xs;
  }

  /** A single family is copied from cursor 0 over the array as it is. */
  lemma {:induction false} CopyFamiliesOne(arr: seq<real>, job: FamilyJob, blocks: BlockSource)
    requires Fits(job.view, |arr|)
    ensures JobsFit([job], |arr|)
    ensures CopyFamilies(arr, [job], blocks) == CopyTypes(Filling(arr, 0, None), job.view, job.types, blocks)
  {
    assert [job][..0] == [];
  }

  /** A family whose types' blocks are all read directly (or skipped) and
      fit its view is written from the cursor on, type by type. */
  lemma {:induction false} CopyTypesDirect(c: Filling, v: View, types: seq<string>, blocks: BlockSource, ls: seq<nat>, ds: seq<seq<real>>)
    requires Fits(v, |c.arr|) && c.error.None?
    requires AllDirect(TypeBlocks(types, blocks), ls, ds, v.dy) && c.i0 + SumNat(ls) <= v.rows
    ensures Offset(v, c.i0) + |Flatten(ds)| <= |c.arr|
    ensures CopyTypes(c, v, types, blocks) == Filling(Splice(c.arr, Offset(v, c.i0), Flatten(ds)), c.i0 + SumNat(ls), None)
  {
    CopyTypesBlocks(c, v, types, blocks);
    CopyBlocksDirect(c, v, TypeBlocks(types, blocks), ls, ds);
  }

  /** Family `j`'s copy starts from the values the earlier families left,
      with its cursor at 0. */
  lemma {:induction false} CopyFamiliesAt(arr: seq<real>, jobs: seq<FamilyJob>, blocks: BlockSource, j: nat)
    requires JobsFit(jobs, |arr|) && j < |jobs| && CopyFamilies(arr, jobs, blocks).error.None?
    ensures JobsFit(jobs[..j], |arr|) && JobsFit(jobs[..j + 1], |arr|)
    ensures CopyFamilies(arr, jobs[..j + 1], blocks) ==
      CopyTypes(Filling(CopyFamilies(arr, jobs[..j], blocks).arr, 0, None), jobs[j].view, jobs[j].types, blocks)
  {
    CopyFamiliesNoError(arr, jobs, blocks, j);
    JobsFitPrefix(jobs, |arr|, j + 1);
    assert jobs[..j + 1][..j] == jobs[..j];
  }

  /** With the views in order and no exception, a family whose types'
      blocks are all read directly (or skipped) and fill its view exactly
      ends up holding their values, in type order and file order. */
  lemma {:induction false} CopyFamiliesDirect(arr: seq<real>, jobs: seq<FamilyJob>, blocks: BlockSource, j: nat, ls: seq<nat>, ds: seq<seq<real>>, o: nat, e: nat)
    requires JobsFit(jobs, |arr|) && Ordered(jobs) && j < |jobs| && CopyFamilies(arr, jobs, blocks).error.None?
    requires AllDirect(TypeBlocks(jobs[j].types, blocks), ls, ds, jobs[j].view.dy)
    requires SumNat(ls) == jobs[j].view.rows
    requires o == Offset(jobs[j].view, 0) && e == End(jobs[j])
    ensures o + |Flatten(ds)| == e <= |arr|
    ensures forall k :: 0 <= k < |Flatten(ds)| ==> CopyFamilies(arr, jobs, blocks).arr[o + k] == Flatten(ds)[k]
  {
    var job := jobs[j];
    var xs := Flatten(ds);
    assert o + |xs| == End(job) <= |arr| by {
      WindowFits(job.view, 0, job.view.rows, |arr|);
      FlattenLength(ds, ls, job.view.dy);
    }
    JobsFitPrefix(jobs, |arr|, j);
    JobsFitPrefix(jobs, |arr|, j + 1);
    var c := CopyFamilies(arr, jobs[..j], blocks);
    var b := CopyFamilies(arr, jobs[..j + 1], blocks);
    assert b.arr == Splice(c.arr, o, xs) by {
      CopyFamiliesAt(arr, jobs, blocks, j);
      CopyTypesDirect(Filling(c.arr, 0, None), job.view, job.types, blocks, ls, ds);
    }
    var r := CopyFamilies(arr, jobs, blocks);
    assert forall k :: o <= k < o + |xs| ==> r.arr[k] == b.arr[k] by {
      CopyFamiliesKeeps(arr, jobs, blocks, j, |jobs|);
      assert jobs[..|jobs|] == jobs;
    }
    WindowValues(r.arr, c.arr, o, xs);
  }

  /** Values that agree with a write over its window are the written ones. */
  lemma {:induction false} WindowValues(r: seq<real>, base: seq<real>, o: nat, xs: seq<real>)
    requires o + |xs| <= |base| == |r|
    requires forall k :: o <= k < o + |xs| ==> r[k] == Splice(base, o, xs)[k]
    ensures forall k :: 0 <= k < |xs| ==> r[o + k] == xs[k]
  {
    forall k | 0 <= k < |xs| ensures r[o + k] == xs[k] {
      assert r[o + k] == Splice(base, o, xs)[o + k];
      SpliceAt(base, o, xs, o + k);
    }
  }

  /** Loading the whole snapshot copies every family's slice job into a
      zeroed array of all its particles; the jobs fit that array, in slice
      order. */
  lemma {:induction false} FillWhole(files: seq<Node>, l: Layout, dy: nat, src: Source)
    requires LayoutOk(l)
    ensures JobsFit(SliceJobs(l, dy), Cells(l.numParticles, dy)) && Ordered(SliceJobs(l, dy))
    ensures var c := CopyFamilies(Const(0.0, Cells(l.numParticles, dy)), SliceJobs(l, dy), FileBlocks(files, src));
      Fill(files, l, None, dy, src) == Created(dy, c.arr, c.error)
  {
    assert MakePlan(l, None, dy) == Success(Plan(l.numParticles, SliceJobs(l, dy)));
    PlanFits(l, None, dy);
    PlanSlices(l, dy);
  }

  /** For the whole snapshot, a family whose types' blocks are all read
      directly (or skipped) and fill its slice exactly has their values,
      in type order and file order, at its slice's positions, unless some
      family's copy raised. */
  lemma {:induction false} FillSliceDirect(files: seq<Node>, l: Layout, dy: nat, src: Source, j: nat, ls: seq<nat>, ds: seq<seq<real>>)
    requires LayoutOk(l) && j < |l.slices| && Fill(files, l, None, dy, src).error.None?
    requires AllDirect(TypeBlocks(l.myTypes[j].types, FileBlocks(files, src)), ls, ds, dy)
    requires SumNat(ls) == l.slices[j].stop - l.slices[j].start
    ensures Cells(l.slices[j].start, dy) + |Flatten(ds)| == Cells(l.slices[j].stop, dy) <= |Fill(files, l, None, dy, src).values|
    ensures forall k :: 0 <= k < |Flatten(ds)| ==> Fill(files, l, None, dy, src).values[Cells(l.slices[j].start, dy) + k] == Flatten(ds)[k]
  {
    var blocks := FileBlocks(files, src);
    var jobs := SliceJobs(l, dy);
    var s := l.slices[j];
    var z := Const(0.0, Cells(l.numParticles, dy));
    FillWhole(files, l, dy, src);
    assert Offset(jobs[j].view, 0) == Cells(s.start, dy) && End(jobs[j]) == Cells(s.stop, dy) && jobs[j].types == l.myTypes[j].types && jobs[j].view.dy == dy && jobs[j].view.rows == s.stop - s.start by {
      PlanSlices(l, dy);
      assert MakePlan(l, None, dy) == Success(Plan(l.numParticles, jobs));
    }
    CopyFamiliesDirect(z, jobs, blocks, j, ls, ds, Cells(s.start, dy), Cells(s.stop, dy));
  }

}
