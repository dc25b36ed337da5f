/** The bookkeeping of the reader for Rockstar intermediate catalogues
    (pynbody/halo/legacy.py): the index records, their filter and sort,
    the particle window of a halo and the per-family group array. */
module Legacy {
  import opened Wrappers
  import opened Seqs
  import IndexLists

  /** One record of the `.rockstar.halos` file: `(id, num_p, indstart)`,
      all int64 (wrap-around is not modelled). */
  datatype HaloRecord = HaloRecord(id: int, numP: int, indStart: int)

  // ---------------------------------------------------------------------
  // _init_index

  /** `halo_info[np.where(halo_info['indstart'] >= 0)]` */
  function Kept(rs: seq<HaloRecord>): (r: seq<HaloRecord>)
    ensures |r| <= |rs|
    ensures forall k :: 0 <= k < |r| ==> r[k].indStart >= 0
    ensures forall x :: x in r <==> x in rs && x.indStart >= 0
  {
    if |rs| == 0 then []
    else
      var last := rs[|rs| - 1];
      assert rs == rs[..|rs| - 1] + [last];
      Kept(rs[..|rs| - 1]) + (if last.indStart >= 0 then [last] else [])
  }

  /** The filter keeps the relative order of the records: it works on
      each part of a file separately. */
  lemma {:induction false} KeptAppend(a: seq<HaloRecord>, b: seq<HaloRecord>)
    ensures Kept(a + b) == Kept(a) + Kept(b)
  {
    if |b| == 0 {
      assert a + b == a;
    } else {
      var init := b[..|b| - 1];
      assert (a + b)[..|a + b| - 1] == a + init;
      KeptAppend(a, init);
    }
  }

  /** A record is kept exactly when its start is non-negative, and a file
      whose starts are all non-negative is kept whole. */
  lemma {:induction false} KeptAll(rs: seq<HaloRecord>)
    requires forall k :: 0 <= k < |rs| ==> rs[k].indStart >= 0
    ensures Kept(rs) == rs
  {
    if |rs| > 0 {
      KeptAll(rs[..|rs| - 1]);
      assert rs == rs[..|rs| - 1] + [rs[|rs| - 1]];
    }
  }

  // ---------------------------------------------------------------------
  // _sort_index

  /** numpy's order on the structured records when sorting by `num_p`:
      `num_p` first, then the remaining fields in dtype order. */
  predicate RecordLe(a: HaloRecord, b: HaloRecord) {
    a.numP < b.numP
    || (a.numP == b.numP && (a.id < b.id || (a.id == b.id && a.indStart <= b.indStart)))
  }

  predicate Ascending(s: seq<HaloRecord>) {
    forall i, j :: 0 <= i < j < |s| ==> RecordLe(s[i], s[j])
  }

  predicate Descending(s: seq<HaloRecord>) {
    forall i, j :: 0 <= i < j < |s| ==> RecordLe(s[j], s[i])
  }

  function InsertRecord(s: seq<HaloRecord>, x: HaloRecord): (r: seq<HaloRecord>)
    ensures |r| == |s| + 1
    ensures multiset(r) == multiset(s) + multiset{x}
  {
    if |s| == 0 then [x]
    else if RecordLe(x, s[0]) then [x] + s
    else
      assert s == [s[0]] + s[1..];
      [s[0]] + InsertRecord(s[1..], x)
  }

  lemma {:induction false} InsertRecordSorted(s: seq<HaloRecord>, x: HaloRecord)
    requires Ascending(s)
    ensures Ascending(InsertRecord(s, x))
  {
    if |s| > 0 && !RecordLe(x, s[0]) {
      var tail := InsertRecord(s[1..], x);
      InsertRecordSorted(s[1..], x);
      forall k | 0 <= k < |tail| ensures RecordLe(s[0], tail[k]) {
        assert tail[k] in multiset(tail);
        if tail[k] != x {
          assert tail[k] in multiset(s[1..]);
          assert tail[k] in s[1..];
        }
      }
      assert InsertRecord(s, x) == [s[0]] + tail;
    }
  }

  /** The ascending rearrangement of the records. */
  function SortRecords(s: seq<HaloRecord>): (r: seq<HaloRecord>)
    ensures |r| == |s| && multiset(r) == multiset(s)
  {
    if |s| == 0 then []
    else
      assert s == s[..|s| - 1] + [s[|s| - 1]];
      InsertRecord(SortRecords(s[..|s| - 1]), s[|s| - 1])
  }

  lemma {:induction false} SortRecordsSorted(s: seq<HaloRecord>)
    ensures Ascending(SortRecords(s))
  {
    if |s| > 0 {
      SortRecordsSorted(s[..|s| - 1]);
      InsertRecordSorted(SortRecords(s[..|s| - 1]), s[|s| - 1]);
    }
  }

  /** `s[::-1]` */
  function Reverse(s: seq<HaloRecord>): (r: seq<HaloRecord>)
    ensures |r| == |s| && forall k :: 0 <= k < |s| ==> r[k] == s[|s| - 1 - k]
    ensures multiset(r) == multiset(s)
  {
    if |s| == 0 then []
    else
      assert s == s[..|s| - 1] + [s[|s| - 1]];
      [s[|s| - 1]] + Reverse(s[..|s| - 1])
  }

  /** `halo_info[::-1].sort(order='num_p')`: an ascending sort of the
      reversed view, which leaves the records themselves descending. */
  function SortIndex(s: seq<HaloRecord>): seq<HaloRecord> {
    Reverse(SortRecords(Reverse(s)))
  }

  lemma ReverseAscending(up: seq<HaloRecord>)
    requires Ascending(up)
    ensures Descending(Reverse(up))
  {
    var r := Reverse(up);
    forall i, j | 0 <= i < j < |r| ensures RecordLe(r[j], r[i]) {
      assert r[i] == up[|up| - 1 - i];
      assert r[j] == up[|up| - 1 - j];
    }
  }

  /** After the sort the records are a permutation of those before, with
      `num_p` non-increasing (ties by descending id, then start). */
  lemma SortIndexSpec(s: seq<HaloRecord>)
    ensures |SortIndex(s)| == |s| && multiset(SortIndex(s)) == multiset(s)
    ensures Descending(SortIndex(s))
    ensures forall i, j :: 0 <= i < j < |s| ==> SortIndex(s)[j].numP <= SortIndex(s)[i].numP
  {
    SortRecordsSorted(Reverse(s));
    ReverseAscending(SortRecords(Reverse(s)));
  }

  // ---------------------------------------------------------------------
  // Reading a halo's particles

  /** `f.seek(start * 8); np.fromfile(f, int64, count)`: a negative count
      reads to the end of the file, and the end of the file cuts the read
      short. */
  function ReadFrom(file: seq<int>, start: nat, count: int): (r: seq<int>)
    ensures count >= 0 && start + count <= |file| ==> r == file[start..start + count]
    ensures count < 0 && start <= |file| ==> r == file[start..]
    ensures |r| <= |file|
  {
    var rest := if start <= |file| then file[start..] else [];
    if count < 0 || count >= |rest| then rest else rest[..count]
  }

  /** `_get_particles_for_halo(num)`: the `num_p - 1` entries of the
      particle file from the record's start, sorted; an index outside the
      records is an IndexError and a negative one counts from the end. */
  function HaloParticles(info: seq<HaloRecord>, particles: seq<int>, num: int): (r: Result<seq<int>>)
    requires forall k :: 0 <= k < |info| ==> info[k].indStart >= 0
  {
    match NormIndex(num, |info|)
    case None => Failure(IndexError)
    case Some(k) => Success(Sort(ReadFrom(particles, info[k].indStart, info[k].numP - 1)))
  }

  /** A halo's particles are its window of the particle file, sorted:
      `num_p - 1` of them when the file holds that many. */
  lemma HaloParticlesSpec(info: seq<HaloRecord>, particles: seq<int>, num: int)
    requires forall k :: 0 <= k < |info| ==> info[k].indStart >= 0
    ensures HaloParticles(info, particles, num).Failure? <==> !(-|info| <= num < |info|)
    ensures HaloParticles(info, particles, num).Success? ==>
      var rec := info[NormIndex(num, |info|).value];
      var window := ReadFrom(particles, rec.indStart, rec.numP - 1);
      var r := HaloParticles(info, particles, num).value;
      && NonDecreasing(r)
      && multiset(r) == multiset(window)
      && (1 <= rec.numP && rec.indStart + rec.numP - 1 <= |particles| ==> |r| == rec.numP - 1)
  {
    if -|info| <= num < |info| {
      var rec := info[NormIndex(num, |info|).value];
      SortCorrect(ReadFrom(particles, rec.indStart, rec.numP - 1));
    }
  }

  // ---------------------------------------------------------------------
  // get_group_array

  datatype Family = Star | Gas | Dark | BH

  /** The four family names the method knows; any other is a TypeError. */
  function ParseFamily(name: string): (r: Result<Family>)
    ensures r.Failure? <==> name !in {"star", "gas", "dark", "BH"}
    ensures r.Failure? ==> r.error == TypeError
  {
    if name == "star" then Success(Star)
    else if name == "gas" then Success(Gas)
    else if name == "dark" then Success(Dark)
    else if name == "BH" then Success(BH)
    else Failure(TypeError)
  }

  /** The index range of a family in the particle file's numbering: dark
      first, then gas, then stars (black holes being stars). */
  predicate InFamily(p: int, fam: Family, ngas: nat, ndark: nat) {
    match fam
    case Dark => p < ndark
    case Gas => ndark <= p < ndark + ngas
    case Star => p >= ndark + ngas
    case BH => p >= ndark + ngas
  }

  /** `halo_ptcls[mask]` for the family's mask, in file order. */
  function FamilyFilter(ps: seq<int>, fam: Family, ngas: nat, ndark: nat): (r: seq<int>)
    ensures |r| <= |ps|
    ensures forall x :: x in r <==> x in ps && InFamily(x, fam, ngas, ndark)
  {
    if |ps| == 0 then []
    else
      var last := ps[|ps| - 1];
      assert ps == ps[..|ps| - 1] + [last];
      FamilyFilter(ps[..|ps| - 1], fam, ngas, ndark) + (if InFamily(last, fam, ngas, ndark) then [last] else [])
  }

  /** The particles a halo contributes to the family's group array. */
  function Selection(rec: HaloRecord, particles: seq<int>, fam: Family, ngas: nat, ndark: nat): seq<int>
    requires rec.indStart >= 0
  {
    FamilyFilter(ReadFrom(particles, rec.indStart, rec.numP - 1), fam, ngas, ndark)
  }

  function Selections(info: seq<HaloRecord>, particles: seq<int>, fam: Family, ngas: nat, ndark: nat): (r: seq<seq<int>>)
    requires forall k :: 0 <= k < |info| ==> info[k].indStart >= 0
    ensures |r| == |info|
  {
    seq(|info|, i requires 0 <= i < |info| => Selection(info[i], particles, fam, ngas, ndark))
  }

  /** `ar[np.where(np.in1d(fpos_ar, halo_ptcls))] = v` */
  function MarkIn(arr: seq<int>, target: seq<int>, sel: seq<int>, v: int): (r: seq<int>)
    requires |arr| == |target|
    ensures |r| == |arr|
  {
    seq(|arr|, j requires 0 <= j < |arr| => if target[j] in sel then v else arr[j])
  }

  /** One halo's write: by particle index for dark matter, by matching
      the target's positions otherwise. */
  function PaintHalo(arr: seq<int>, target: seq<int>, fam: Family, sel: seq<int>, v: int): (r: Result<seq<int>>)
    requires |arr| == |target|
    ensures r.Success? ==> |r.value| == |arr|
    ensures r.Failure? ==> r.error == IndexError
  {
    if fam == Dark then IndexLists.WriteAll(arr, sel, v) else Success(MarkIn(arr, target, sel, v))
  }

  /** The writes of the halos in index order, halo `i` writing `i`. */
  function PaintHalos(arr: seq<int>, target: seq<int>, fam: Family, sels: seq<seq<int>>): (r: Result<seq<int>>)
    requires |arr| == |target|
    ensures r.Success? ==> |r.value| == |arr|
    ensures r.Failure? ==> r.error == IndexError
  {
    if |sels| == 0 then Success(arr)
    else
      match PaintHalos(arr, target, fam, sels[..|sels| - 1])
      case Failure(e) => Failure(e)
      case Success(w) => PaintHalo(w, target, fam, sels[|sels| - 1], |sels| - 1)
  }

  /** `get_group_array(family)` given the particle-count split, and the
      target family's positions in the snapshot (for dark matter only
      their number is used). */
  function GroupArrayOf(info: seq<HaloRecord>, particles: seq<int>, family: string, ngas: nat, ndark: nat, target: seq<int>): Result<seq<int>>
    requires forall k :: 0 <= k < |info| ==> info[k].indStart >= 0
  {
    match ParseFamily(family)
    case Failure(e) => Failure(e)
    case Success(fam) => PaintHalos(IndexLists.Filled(|target|, -1), target, fam, Selections(info, particles, fam, ngas, ndark))
  }

  /** Whether halo selection `sel` writes to position `q`. */
  predicate Marks(fam: Family, target: seq<int>, sel: seq<int>, q: nat) {
    if fam == Dark then IndexLists.Hits(sel, q, |target|) else q < |target| && target[q] in sel
  }

  /** The last halo that writes to position `q`: its write survives. */
  function LastMark(fam: Family, target: seq<int>, sels: seq<seq<int>>, q: nat): (r: Option<nat>)
    ensures r.None? <==> forall i :: 0 <= i < |sels| ==> !Marks(fam, target, sels[i], q)
    ensures r.Some? ==>
      && r.value < |sels| && Marks(fam, target, sels[r.value], q)
      && forall i :: r.value < i < |sels| ==> !Marks(fam, target, sels[i], q)
  {
    if |sels| == 0 then None
    else if Marks(fam, target, sels[|sels| - 1], q) then Some(|sels| - 1)
    else
      var r := LastMark(fam, target, sels[..|sels| - 1], q);
      assert forall i :: 0 <= i < |sels| - 1 ==> sels[..|sels| - 1][i] == sels[i];
      r
  }

  predicate DarkInRange(fam: Family, arrLength: nat, sels: seq<seq<int>>) {
    fam == Dark ==> forall i :: 0 <= i < |sels| ==> IndexLists.AllInRange(sels[i], arrLength)
  }

  lemma PaintHaloSpec(arr: seq<int>, target: seq<int>, fam: Family, sel: seq<int>, v: int)
    requires |arr| == |target|
    ensures PaintHalo(arr, target, fam, sel, v).Success? <==> (fam == Dark ==> IndexLists.AllInRange(sel, |arr|))
    ensures PaintHalo(arr, target, fam, sel, v).Success? ==>
      forall q :: 0 <= q < |arr| ==>
        PaintHalo(arr, target, fam, sel, v).value[q] == if Marks(fam, target, sel, q) then v else arr[q]
  {
    if fam == Dark {
      IndexLists.WriteAllSpec(arr, sel, v);
    }
  }

  /** The painting fails exactly when a dark halo has an index outside
      the array; otherwise each position holds the index of the last halo
      that writes it, or its old value. */
  lemma {:induction false} PaintHalosSpec(arr: seq<int>, target: seq<int>, fam: Family, sels: seq<seq<int>>)
    requires |arr| == |target|
    ensures PaintHalos(arr, target, fam, sels).Success? <==> DarkInRange(fam, |arr|, sels)
    ensures PaintHalos(arr, target, fam, sels).Success? ==>
      forall q :: 0 <= q < |arr| ==>
        PaintHalos(arr, target, fam, sels).value[q] == match LastMark(fam, target, sels, q)
          case None => arr[q]
          case Some(i) => i
  {
    if |sels| > 0 {
      var init := sels[..|sels| - 1];
      var last := sels[|sels| - 1];
      PaintHalosSpec(arr, target, fam, init);
      assert forall i :: 0 <= i < |init| ==> init[i] == sels[i];
      assert DarkInRange(fam, |arr|, sels) <==>
        DarkInRange(fam, |arr|, init) && (fam == Dark ==> IndexLists.AllInRange(last, |arr|));
      if PaintHalos(arr, target, fam, init).Success? {
        PaintHaloSpec(PaintHalos(arr, target, fam, init).value, target, fam, last, |sels| - 1);
      }
    }
  }

  lemma {:induction false} PaintHalosFailsFrom(arr: seq<int>, target: seq<int>, fam: Family, sels: seq<seq<int>>, n: nat)
    requires |arr| == |target| && 0 < n <= |sels|
    requires PaintHalos(arr, target, fam, sels[..n]).Failure?
    ensures PaintHalos(arr, target, fam, sels) == PaintHalos(arr, target, fam, sels[..n])
    decreases |sels| - n
  {
    if n == |sels| {
      assert sels[..n] == sels;
    } else {
      assert sels[..n + 1][..n] == sels[..n];
      PaintHalosFailsFrom(arr, target, fam, sels, n + 1);
    }
  }

  /** The family filters: a halo contributes exactly its particles in
      the family's index range. */
  lemma SelectionSpec(rec: HaloRecord, particles: seq<int>, fam: Family, ngas: nat, ndark: nat, p: int)
    requires rec.indStart >= 0
    ensures p in Selection(rec, particles, fam, ngas, ndark) <==>
      p in ReadFrom(particles, rec.indStart, rec.numP - 1) && InFamily(p, fam, ngas, ndark)
  {
  }

  /** The group array: an unknown family is a TypeError; otherwise, when
      it succeeds, it has the target's length and each entry is the index
      of the last halo claiming that particle, or -1. */
  lemma GroupArraySpec(info: seq<HaloRecord>, particles: seq<int>, family: string, ngas: nat, ndark: nat, target: seq<int>)
    requires forall k :: 0 <= k < |info| ==> info[k].indStart >= 0
    ensures GroupArrayOf(info, particles, family, ngas, ndark, target) == Failure(TypeError) <==>
      family !in {"star", "gas", "dark", "BH"}
    ensures var r := GroupArrayOf(info, particles, family, ngas, ndark, target);
      r.Success? ==>
        var fam := ParseFamily(family).value;
        var sels := Selections(info, particles, fam, ngas, ndark);
        && |r.value| == |target|
        && forall q :: 0 <= q < |target| ==>
             r.value[q] == match LastMark(fam, target, sels, q) case None => -1 case Some(i) => i
  {
    if ParseFamily(family).Success? {
      var fam := ParseFamily(family).value;
      PaintHalosSpec(IndexLists.Filled(|target|, -1), target, fam, Selections(info, particles, fam, ngas, ndark));
    }
  }

  /** With a well-formed particle file (no negative entries) and the
      dark array as long as the dark family, the dark group array never
      raises: the filter keeps only indices below `ndark`. */
  lemma DarkGroupArrayTotal(info: seq<HaloRecord>, particles: seq<int>, ngas: nat, ndark: nat, target: seq<int>)
    requires forall k :: 0 <= k < |info| ==> info[k].indStart >= 0
    requires forall k :: 0 <= k < |particles| ==> particles[k] >= 0
    requires |target| >= ndark
    ensures GroupArrayOf(info, particles, "dark", ngas, ndark, target).Success?
  {
    var sels := Selections(info, particles, Dark, ngas, ndark);
    forall i | 0 <= i < |sels| ensures IndexLists.AllInRange(sels[i], |target|) {
      var window := ReadFrom(particles, info[i].indStart, info[i].numP - 1);
      assert forall x :: x in window ==> x in particles;
      forall t | 0 <= t < |sels[i]| ensures NormIndex(sels[i][t], |target|).Some? {
        assert sels[i][t] in sels[i];
      }
    }
    PaintHalosSpec(IndexLists.Filled(|target|, -1), target, Dark, sels);
  }

  /** The result of `load_copy(i)`: the particles to take and the
      `rockstar_halo_id` property. */
  datatype Copy = Copy(take: seq<int>, rockstarId: int)

  /** The reader's state: the header count, the index records and the
      particle file's int64 entries. */
  class RockstarCatalogue {
    var nhalos: int
    var haloInfo: seq<HaloRecord>
    const particles: seq<int>

    ghost predicate Valid()
      reads this
    {
      forall k :: 0 <= k < |haloInfo| ==> haloInfo[k].indStart >= 0
    }

    /** `RockstarIntermediateCatalogue(sim, sort)` given the header count,
        the records and the particle file's entries. */
    constructor(header: int, records: seq<HaloRecord>, particles: seq<int>, sort: bool)
      ensures Valid() && this.particles == particles && nhalos == header
      ensures haloInfo == if sort then SortIndex(Kept(records)) else Kept(records)
    {
      this.particles := particles;
      new;
      InitIndex(header, records);
      if sort {
        SortIndexInPlace();
      }
    }

    /** `_init_index`: the header count and the records with a
        non-negative start, in file order. */
    method InitIndex(header: int, records: seq<HaloRecord>)
      modifies this
      ensures Valid() && nhalos == header && haloInfo == Kept(records)
    {
      nhalos := header;
      haloInfo := Kept(records);
    }

    /** `_sort_index`, which keeps every start non-negative. */
    method SortIndexInPlace()
      requires Valid()
      modifies this
      ensures Valid() && haloInfo == SortIndex(old(haloInfo)) && nhalos == old(nhalos)
    {
      ghost var before := haloInfo;
      haloInfo := SortIndex(haloInfo);
      SortIndexSpec(before);
      forall k | 0 <= k < |haloInfo| ensures haloInfo[k].indStart >= 0 {
        assert haloInfo[k] in multiset(before);
      }
    }

    /** `_get_particles_for_halo(num)` */
    method ParticlesForHalo(num: int) returns (r: Result<seq<int>>)
      requires Valid()
      ensures r == HaloParticles(haloInfo, particles, num)
    {
      var k := NormIndex(num, |haloInfo|);
      if k.None? {
        return Failure(IndexError);
      }
      var rec := haloInfo[k.value];
      var window := ReadFrom(particles, rec.indStart, rec.numP - 1);
      r := Success(Sort(window));
    }

    /** `load_copy(i)`: KeyError at or past the header count; the
        records are then indexed as a numpy array (negative from the
        end, IndexError past the filtered records). */
    method LoadCopy(i: int) returns (r: Result<Copy>)
      requires Valid()
      ensures i >= nhalos ==> r == Failure(KeyError)
      ensures i < nhalos ==> (r.Failure? <==> !(-|haloInfo| <= i < |haloInfo|))
      ensures r.Success? ==>
        && HaloParticles(haloInfo, particles, i) == Success(r.value.take)
        && r.value.rockstarId == haloInfo[NormIndex(i, |haloInfo|).value].id
    {
      if i >= nhalos {
        return Failure(KeyError);
      }
      var take := ParticlesForHalo(i);
      if take.Failure? {
        return Failure(take.error);
      }
      r := Success(Copy(take.value, haloInfo[NormIndex(i, |haloInfo|).value].id));
    }

    /** `get_group_array(family)` */
    method GetGroupArray(family: string, ngas: nat, ndark: nat, target: seq<int>) returns (r: Result<seq<int>>)
      requires Valid()
      ensures r == GroupArrayOf(haloInfo, particles, family, ngas, ndark, target)
    {
      var parsed := ParseFamily(family);
      if parsed.Failure? {
        return Failure(parsed.error);
      }
      var fam := parsed.value;
      var ar := new int[|target|];
      forall j | 0 <= j < |target| {
        ar[j] := -1;
      }
      assert ar[..] == IndexLists.Filled(|target|, -1);
      ghost var sels := Selections(haloInfo, particles, fam, ngas, ndark);
      var i := 0;
      while i < |haloInfo|
        invariant 0 <= i <= |haloInfo|
        invariant PaintHalos(IndexLists.Filled(|target|, -1), target, fam, sels[..i]) == Success(ar[..])
      {
        assert sels[..i + 1][..i] == sels[..i];
        var sel := Selection(haloInfo[i], particles, fam, ngas, ndark);
        if fam == Dark {
          var ok := IndexLists.WriteMembers(ar, sel, i);
          if !ok {
            PaintHalosFailsFrom(IndexLists.Filled(|target|, -1), target, fam, sels, i + 1);
            return Failure(IndexError);
          }
        } else {
          MarkInPlace(ar, target, sel, i);
        }
        i := i + 1;
      }
      assert sels[..i] == sels;
      r := Success(ar[..]);
    }
  }

  /** The masked write of one non-dark halo. */
  method MarkInPlace(ar: array<int>, target: seq<int>, sel: seq<int>, v: int)
    requires ar.Length == |target|
    modifies ar
    ensures ar[..] == MarkIn(old(ar[..]), target, sel, v)
  {
    ghost var before := ar[..];
    var j := 0;
    while j < ar.Length
      invariant 0 <= j <= ar.Length
      invariant forall k :: 0 <= k < j ==> ar[k] == MarkIn(before, target, sel, v)[k]
      invariant forall k :: j <= k < ar.Length ==> ar[k] == before[k]
    {
      if target[j] in sel {
        ar[j] := v;
      }
      j := j + 1;
    }
  }
}
