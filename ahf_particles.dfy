/** The particle bookkeeping of the AHF reader (pynbody/halo/ahf.py):
    translating AHF particle numbers into pynbody particle offsets, the
    particle block of one halo, and the table of halo boundaries. */
module AhfParticles {
  import opened Wrappers
  import opened Seqs

  // ---------------------------------------------------------------------
  // _ahf_to_pynbody_particle_ids

  /** Which snapshot class the catalogue sits on.  AHF numbers particles
      dark, then star, then gas.  `Ramses` carries `len(base)` and the
      starts of the dm, star and gas family slices. */
  datatype SnapKind =
    | Plain
    | Nchilada
    | Ramses(length: nat, dmStart: int, starStart: int, gasStart: int)

  /** Family sizes of the base snapshot: `len(base.gas)`, `len(base.dark)`,
      `len(base.star)`. */
  datatype Counts = Counts(ng: nat, nd: nat, ns: nat)

  function Total(c: Counts): nat {
    c.ng + c.nd + c.ns
  }

  /** The value one AHF particle number ends up as. */
  function Remap(kind: SnapKind, c: Counts, x: int): int {
    var nds := c.nd + c.ns;
    match kind
    case Plain => if x >= nds then x - nds else x + c.ng
    case Nchilada =>
      if c.nd <= x < nds then x + c.ng
      else if x >= nds then x - c.ns
      else x
    case Ramses(length, dmStart, starStart, gasStart) =>
      if length == Total(c) then x
      else if x < c.nd then x + dmStart
      else if x < nds then x + (starStart - c.nd)
      else x + (gasStart - nds)
  }

  /** The masks of one branch, all computed from the data before any of
      it is changed. */
  function Mask(d: seq<int>, lo: Option<int>, hi: Option<int>): (m: seq<bool>)
    ensures |m| == |d|
    ensures forall i :: 0 <= i < |d| ==>
      (m[i] <==> (lo.None? || lo.value <= d[i]) && (hi.None? || d[i] < hi.value))
  {
    seq(|d|, i requires 0 <= i < |d| => (lo.None? || lo.value <= d[i]) && (hi.None? || d[i] < hi.value))
  }

  /** `data[np.where(mask)] += delta` */
  method AddWhere(data: array<int>, mask: seq<bool>, delta: int)
    requires |mask| == data.Length
    modifies data
    ensures forall i :: 0 <= i < data.Length ==>
      data[i] == if mask[i] then old(data[i]) + delta else old(data[i])
  {
    var i := 0;
    while i < data.Length
      invariant 0 <= i <= data.Length
      invariant forall j :: 0 <= j < i ==> data[j] == if mask[j] then old(data[j]) + delta else old(data[j])
      invariant forall j :: i <= j < data.Length ==> data[j] == old(data[j])
    {
      if mask[i] {
        data[i] := data[i] + delta;
      }
      i := i + 1;
    }
  }

  /** `_ahf_to_pynbody_particle_ids(data)` without `use_iord`: every
      element is moved by the offset of the AHF family it started in. */
  method AhfToPynbodyParticleIds(data: array<int>, kind: SnapKind, c: Counts)
    modifies data
    ensures forall i :: 0 <= i < data.Length ==> data[i] == Remap(kind, c, old(data[i]))
  {
    var nds := c.nd + c.ns;
    match kind
    case Plain =>
      var hi := Mask(data[..], Some(nds), None);
      var lo := seq(data.Length, i requires 0 <= i < data.Length => !hi[i]);
      AddWhere(data, hi, -nds);
      AddWhere(data, lo, c.ng);
    case Nchilada =>
      var st := Mask(data[..], Some(c.nd), Some(nds));
      var g := Mask(data[..], Some(nds), None);
      AddWhere(data, st, c.ng);
      AddWhere(data, g, -(c.ns as int));
    case Ramses(length, dmStart, starStart, gasStart) =>
      if length != Total(c) {
        var dm := Mask(data[..], None, Some(c.nd));
        var star := Mask(data[..], Some(c.nd), Some(nds));
        var gas := Mask(data[..], Some(nds), None);
        AddWhere(data, dm, dmStart);
        AddWhere(data, star, starStart - c.nd);
        AddWhere(data, gas, gasStart - nds);
      }
  }

  /** The translation back from pynbody order (gas, dark, star). */
  function UnmapPlain(c: Counts, y: int): int {
    if y < c.ng then y + c.nd + c.ns else y - c.ng
  }

  /** Default snapshots: AHF dark, star and gas land on pynbody's dark,
      star and gas ranges of the gas/dark/star order, and the translation
      is a bijection of `0 .. N-1` with `UnmapPlain` as its inverse. */
  lemma PlainBijection(c: Counts, x: int, y: int)
    ensures 0 <= x < c.nd ==> c.ng <= Remap(Plain, c, x) < c.ng + c.nd
    ensures c.nd <= x < c.nd + c.ns ==> c.ng + c.nd <= Remap(Plain, c, x) < Total(c)
    ensures c.nd + c.ns <= x < Total(c) ==> 0 <= Remap(Plain, c, x) < c.ng
    ensures 0 <= x < Total(c) ==> UnmapPlain(c, Remap(Plain, c, x)) == x
    ensures 0 <= y < Total(c) ==> 0 <= UnmapPlain(c, y) < Total(c) && Remap(Plain, c, UnmapPlain(c, y)) == y
  {
  }

  /** The translation back from Nchilada order (dark, gas, star). */
  function UnmapNchilada(c: Counts, y: int): int {
    if y < c.nd then y else if y < c.nd + c.ng then y + c.ns else y - c.ng
  }

  /** Nchilada snapshots: dark stays, star and gas swap places behind it;
      again a bijection of `0 .. N-1`. */
  lemma NchiladaBijection(c: Counts, x: int, y: int)
    ensures 0 <= x < c.nd ==> Remap(Nchilada, c, x) == x
    ensures c.nd <= x < c.nd + c.ns ==> c.nd + c.ng <= Remap(Nchilada, c, x) < Total(c)
    ensures c.nd + c.ns <= x < Total(c) ==> c.nd <= Remap(Nchilada, c, x) < c.nd + c.ng
    ensures 0 <= x < Total(c) ==> UnmapNchilada(c, Remap(Nchilada, c, x)) == x
    ensures 0 <= y < Total(c) ==> 0 <= UnmapNchilada(c, y) < Total(c) && Remap(Nchilada, c, UnmapNchilada(c, y)) == y
  {
  }

  /** Ramses snapshots: without extra families nothing moves; with them
      each AHF family lands at the start of its own family slice, keeping
      its position within the family. */
  lemma RamsesFamilies(length: nat, dmStart: int, starStart: int, gasStart: int, c: Counts, x: int)
    ensures length == Total(c) ==> Remap(Ramses(length, dmStart, starStart, gasStart), c, x) == x
    ensures length != Total(c) && 0 <= x < c.nd ==>
      Remap(Ramses(length, dmStart, starStart, gasStart), c, x) == dmStart + x
    ensures length != Total(c) && c.nd <= x < c.nd + c.ns ==>
      Remap(Ramses(length, dmStart, starStart, gasStart), c, x) == starStart + (x - c.nd)
    ensures length != Total(c) && c.nd + c.ns <= x ==>
      Remap(Ramses(length, dmStart, starStart, gasStart), c, x) == gasStart + (x - c.nd - c.ns)
  {
  }

  // ---------------------------------------------------------------------
  // _load_ahf_particle_block

  /** At most `count` integers from `tokens`, everything for a negative
      count (`np.fromfile(f, sep=" ", count=count)`). */
  function Take(tokens: seq<int>, count: int): (r: seq<int>)
    ensures |r| <= |tokens|
    ensures forall k :: 0 <= k < |r| ==> r[k] == tokens[k]
  {
    if count < 0 || count >= |tokens| then tokens else tokens[..count]
  }

  /** `data[::2]` */
  function EveryOther(s: seq<int>): (r: seq<int>)
    ensures |r| == (|s| + 1) / 2
    ensures forall k :: 0 <= k < |r| ==> r[k] == s[2 * k]
  {
    seq((|s| + 1) / 2, k requires 0 <= k < (|s| + 1) / 2 => s[2 * k])
  }

  function RemapAll(kind: SnapKind, c: Counts, d: seq<int>): (r: seq<int>)
    ensures |r| == |d| && forall k :: 0 <= k < |d| ==> r[k] == Remap(kind, c, d[k])
  {
    seq(|d|, k requires 0 <= k < |d| => Remap(kind, c, d[k]))
  }

  /** What `_load_ahf_particle_block(f, nparts)` returns when `tokens` are
      the integers left in the file: new-format files hold two columns,
      of which the first is kept and translated; old-format files hold
      one column of pynbody offsets.  Either way the block is sorted. */
  function ParticleBlock(tokens: seq<int>, nparts: int, newFormat: bool, kind: SnapKind, c: Counts): seq<int> {
    if newFormat then Sort(RemapAll(kind, c, EveryOther(Take(tokens, nparts * 2))))
    else Sort(Take(tokens, nparts))
  }

  /** The same, as the source computes it: read, translate in place, sort. */
  method LoadParticleBlock(tokens: seq<int>, nparts: int, newFormat: bool, kind: SnapKind, c: Counts)
    returns (block: seq<int>)
    ensures block == ParticleBlock(tokens, nparts, newFormat, kind, c)
  {
    if newFormat {
      var column := EveryOther(Take(tokens, nparts * 2));
      var data := new int[|column|];
      forall i | 0 <= i < |column| {
        data[i] := column[i];
      }
      AhfToPynbodyParticleIds(data, kind, c);
      assert data[..] == RemapAll(kind, c, column);
      block := Sort(data[..]);
    } else {
      block := Sort(Take(tokens, nparts));
    }
  }

  /** Every block is sorted, holds `nparts` entries when the file has
      enough, and holds exactly the (translated) first-column values. */
  lemma ParticleBlockSpec(tokens: seq<int>, nparts: nat, newFormat: bool, kind: SnapKind, c: Counts)
    ensures NonDecreasing(ParticleBlock(tokens, nparts, newFormat, kind, c))
    ensures newFormat && 2 * nparts <= |tokens| ==> |ParticleBlock(tokens, nparts, newFormat, kind, c)| == nparts
    ensures !newFormat && nparts <= |tokens| ==> |ParticleBlock(tokens, nparts, newFormat, kind, c)| == nparts
    ensures newFormat ==> multiset(ParticleBlock(tokens, nparts, newFormat, kind, c))
                           == multiset(RemapAll(kind, c, EveryOther(Take(tokens, nparts * 2))))
    ensures !newFormat ==> multiset(ParticleBlock(tokens, nparts, newFormat, kind, c)) == multiset(Take(tokens, nparts))
  {
    if newFormat {
      SortCorrect(RemapAll(kind, c, EveryOther(Take(tokens, nparts * 2))));
    } else {
      SortCorrect(Take(tokens, nparts));
    }
  }

  // ---------------------------------------------------------------------
  // The boundary table of _get_all_particle_indices

  /** Row `k` of `np.vstack((b[:-1], b[1:])).T` where
      `b = np.cumsum(np.concatenate(([0], npart)))`. */
  function BoundaryTable(npart: seq<nat>): (r: seq<(int, int)>)
    ensures |r| == |npart|
  {
    seq(|npart|, k requires 0 <= k < |npart| => (Sum(npart[..k]), Sum(npart[..k + 1])))
  }

  lemma PrefixSumStep(s: seq<int>, k: nat)
    requires k < |s|
    ensures Sum(s[..k + 1]) == Sum(s[..k]) + s[k]
  {
    assert s[..k + 1][..k] == s[..k];
  }

  lemma {:induction false} PrefixSumNonNegative(s: seq<nat>, k: nat)
    requires k <= |s|
    ensures Sum(s[..k]) >= 0
  {
    if k > 0 {
      PrefixSumNonNegative(s, k - 1);
      PrefixSumStep(s, k - 1);
    }
  }

  /** Halo `k` occupies `start_k .. end_k`: the first starts at 0, each is
      `npart[k]` long, each starts where the previous ends, and the last
      ends at the total particle count. */
  lemma BoundaryTableSpec(npart: seq<nat>)
    ensures var t := BoundaryTable(npart);
      && (|t| > 0 ==> t[0].0 == 0)
      && (forall k :: 0 <= k < |t| ==> t[k].1 - t[k].0 == npart[k] && t[k].0 >= 0)
      && (forall k :: 0 <= k < |t| - 1 ==> t[k + 1].0 == t[k].1)
      && (|t| > 0 ==> t[|t| - 1].1 == Sum(npart))
  {
    var t := BoundaryTable(npart);
    forall k | 0 <= k < |t| ensures t[k].1 - t[k].0 == npart[k] && t[k].0 >= 0 {
      PrefixSumStep(npart, k);
      PrefixSumNonNegative(npart, k);
    }
    assert npart[..|npart|] == npart;
  }

  // ---------------------------------------------------------------------
  // The fill loop of _get_all_particle_indices

  /** `ids[start:end] = block` broadcasts a one-element block; any other
      length mismatch is a ValueError. */
  predicate Fits(block: seq<int>, n: nat) {
    |block| == n || |block| == 1
  }

  function Expand(block: seq<int>, n: nat): (r: seq<int>)
    requires Fits(block, n)
    ensures |r| == n
  {
    if |block| == n then block else seq(n, _ => block[0])
  }

  /** The particle array the loop leaves: the blocks, each stretched to
      its halo's count, one after another. */
  function Flatten(npart: seq<nat>, blocks: seq<seq<int>>): (r: Result<seq<int>>)
    requires |blocks| == |npart|
    ensures r.Success? ==> |r.value| == Sum(npart)
    ensures r.Failure? ==> r.error == ValueError
  {
    if |npart| == 0 then Success([])
    else
      var n := |npart| - 1;
      assert npart[..n] == npart[..|npart| - 1];
      match Flatten(npart[..n], blocks[..n])
      case Failure(e) => Failure(e)
      case Success(init) =>
        if Fits(blocks[n], npart[n]) then Success(init + Expand(blocks[n], npart[n]))
        else Failure(ValueError)
  }

  /** The particle ids with the boundary table, or the error the loop
      raises; `blocks[k]` is what the file yields for halo `k`. */
  datatype ParticleIndices = ParticleIndices(particleIds: seq<int>, boundaries: seq<(int, int)>)

  /** `_get_all_particle_indices`, given the blocks the file holds. A
      catalogue without halos has an empty boundary table, whose
      `boundaries[-1,1]` raises IndexError before anything is read. */
  method GetAllParticleIndices(npart: seq<nat>, blocks: seq<seq<int>>) returns (r: Result<ParticleIndices>)
    requires |blocks| == |npart|
    ensures r.Success? <==> |npart| > 0 && Flatten(npart, blocks).Success?
    ensures r.Success? ==> r.value == ParticleIndices(Flatten(npart, blocks).value, BoundaryTable(npart))
    ensures r.Failure? ==> r.error == (if |npart| == 0 then IndexError else ValueError)
  {
    if |npart| == 0 {
      return Failure(IndexError);
    }
    var table := BoundaryTable(npart);
    var total := Sum(npart);
    PrefixSumNonNegative(npart, |npart|);
    assert npart[..|npart|] == npart;
    var ids := new int[total];
    var k := 0;
    assert npart[..0] == [] && blocks[..0] == [];
    while k < |npart|
      invariant 0 <= k <= |npart|
      invariant Sum(npart[..k]) <= total
      invariant Flatten(npart[..k], blocks[..k]).Success?
      invariant ids[..Sum(npart[..k])] == Flatten(npart[..k], blocks[..k]).value
    {
      TableRow(npart, k);
      var start := table[k].0;
      var end := table[k].1;
      var block := blocks[k];
      FlattenStep(npart, blocks, k);
      if !Fits(block, npart[k]) {
        FlattenFailsLater(npart, blocks, k + 1);
        return Failure(ValueError);
      }
      var filled := Expand(block, npart[k]);
      WriteSlice(ids, start, filled);
      k := k + 1;
    }
    assert npart[..k] == npart && blocks[..k] == blocks;
    assert ids[..total] == ids[..];
    r := Success(ParticleIndices(ids[..], table));
  }

  /** `ids[start:start+|v|] = v` on the array itself. */
  method WriteSlice(ids: array<int>, start: nat, v: seq<int>)
    requires start + |v| <= ids.Length
    modifies ids
    ensures ids[..start + |v|] == old(ids[..start]) + v
  {
    var i := 0;
    while i < |v|
      invariant 0 <= i <= |v|
      invariant ids[..start + i] == old(ids[..start]) + v[..i]
    {
      ids[start + i] := v[i];
      i := i + 1;
      assert v[..i] == v[..i - 1] + [v[i - 1]];
    }
    assert v[..i] == v;
  }

  /** Row `k` of the table in terms of the running total. */
  lemma TableRow(npart: seq<nat>, k: nat)
    requires k < |npart|
    ensures BoundaryTable(npart)[k] == (Sum(npart[..k]), Sum(npart[..k]) + npart[k])
    ensures Sum(npart[..k + 1]) == Sum(npart[..k]) + npart[k]
    ensures 0 <= Sum(npart[..k]) && Sum(npart[..k]) + npart[k] <= Sum(npart)
  {
    PrefixSumStep(npart, k);
    PrefixSumNonNegative(npart, k);
    PrefixMonotone(npart, k + 1, |npart|);
    assert npart[..|npart|] == npart;
  }

  lemma {:induction false} PrefixMonotone(s: seq<nat>, i: nat, j: nat)
    requires i <= j <= |s|
    ensures Sum(s[..i]) <= Sum(s[..j])
    decreases j - i
  {
    if i < j {
      PrefixMonotone(s, i, j - 1);
      PrefixSumStep(s, j - 1);
    }
  }

  lemma FlattenStep(npart: seq<nat>, blocks: seq<seq<int>>, k: nat)
    requires |blocks| == |npart| && k < |npart|
    ensures Flatten(npart[..k + 1], blocks[..k + 1]) ==
      match Flatten(npart[..k], blocks[..k])
      case Failure(e) => Failure(e)
      case Success(init) =>
        if Fits(blocks[k], npart[k]) then Success(init + Expand(blocks[k], npart[k])) else Failure(ValueError)
  {
    assert npart[..k + 1][..k] == npart[..k];
    assert blocks[..k + 1][..k] == blocks[..k];
  }

  lemma {:induction false} FlattenFailsLater(npart: seq<nat>, blocks: seq<seq<int>>, j: nat)
    requires |blocks| == |npart| && 0 < j <= |npart|
    requires Flatten(npart[..j], blocks[..j]).Failure?
    ensures Flatten(npart, blocks).Failure?
    decreases |npart| - j
  {
    if j < |npart| {
      FlattenStep(npart, blocks, j);
      FlattenFailsLater(npart, blocks, j + 1);
    } else {
      assert npart[..j] == npart && blocks[..j] == blocks;
    }
  }

  /** Each halo's slice of the particle array, as the boundary table
      gives it, is that halo's block (stretched when it has one entry). */
  lemma {:induction false} FlattenSlices(npart: seq<nat>, blocks: seq<seq<int>>, k: nat)
    requires |blocks| == |npart| && k < |npart|
    requires Flatten(npart, blocks).Success?
    ensures Fits(blocks[k], npart[k])
    ensures var ids := Flatten(npart, blocks).value;
      var t := BoundaryTable(npart);
      0 <= t[k].0 <= t[k].1 <= |ids| && ids[t[k].0..t[k].1] == Expand(blocks[k], npart[k])
    decreases |npart|
  {
    var n := |npart| - 1;
    var init := npart[..n];
    assert init == npart[..|npart| - 1];
    var ids := Flatten(npart, blocks).value;
    var rest := Flatten(init, blocks[..n]).value;
    PrefixSumStep(npart, k);
    PrefixSumNonNegative(npart, k);
    PrefixMonotone(npart, k + 1, |npart|);
    assert npart[..|npart|] == npart;
    if k == n {
      assert ids == rest + Expand(blocks[n], npart[n]);
      assert |rest| == Sum(npart[..n]);
      assert ids[|rest|..] == Expand(blocks[n], npart[n]);
    } else {
      FlattenSlices(init, blocks[..n], k);
      assert init[..k] == npart[..k] && init[..k + 1] == npart[..k + 1];
      var t := BoundaryTable(npart);
      assert BoundaryTable(init)[k] == t[k];
      assert ids == rest + Expand(blocks[n], npart[n]);
      PrefixMonotone(init, k + 1, n);
      assert init[..n] == init;
      assert ids[t[k].0..t[k].1] == rest[t[k].0..t[k].1];
    }
  }
}
