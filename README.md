# Halo membership and Gadget-HDF bookkeeping of pynbody, in Dafny

This project models the integer and string logic at the centre of pynbody's
halo catalogues and of its Gadget-HDF snapshot reader, and proves what that
logic promises.

- **`IndexList`** (`IndexLists`): it maps halo IDs to contiguous runs of a
  particle-index array. It is built either from a per-particle halo-ID array,
  by a stable argsort, or from ready-made parts, which it checks. A lookup is
  a binary search followed by a slice. The group array is rebuilt by writing
  the objects longest first, so the smallest object containing a particle wins.
- **`HaloCatalogue` and `GrpCatalogue`** (`Catalogues`): a class holding the
  two caches, the optional IndexList and the map of memoised halos. The
  subclass hook `_get_index_list_all_halos` is the catalogue's `Format`.
  A ghost counter records how often the hook is called.
- **The AHF reader** (`AhfParticles`, `AhfFiles`): the translation of AHF
  particle numbers into pynbody offsets; the particle block of one halo; the
  boundary table; parsing of the `.halos` header and value lines; the pairing
  of the substructure file's lines; the format-revision test on the file name;
  and the dispatch on the `halo_numbers` keyword.
- **The Rockstar intermediate reader** (`Legacy`): the filter and the
  descending sort of the index records, the bound check of `load_copy`, the
  window read of one halo's particles, and the family filters and overwrite
  loop of `get_group_array`.
- **The Gadget-HDF reader** (`GadgetHdf`, `GadgetSnap`):
  - the HDF file as a tree of groups and datasets;
  - the `/`-path walk and the header-mass dummy dataset;
  - `my_type_map` and the consecutive family slices;
  - the loadable-array predicate;
  - the search for a first dataset and the dimension inference;
  - the block copy of `_load_array` into a flat array, one
    view per family.

`Seqs` and `PyStrings` hold the numpy and Python built-ins the source relies
on: `np.unique`, the stable argsort, `np.searchsorted`, `np.where`, `sort`,
`str.split`, `str.split(c)`, `int(...)`, `str(...)`.

Python exceptions are values of `Wrappers.Error`. Every operation that can
raise returns a `Result` (or an `Outcome`), so each failure path is part of a
contract. The pure definitions are functions with lemmas about them. The loops
of the source are methods proved equal to those functions. The mutable objects
are classes:
- `Catalogues.HaloCatalogue`;
- `Legacy.RockstarCatalogue`;
- `GadgetSnap.GadgetHdfSnap`, whose arrays are Dafny `array`s written in place.

Where the documentation and the code disagree, the model follows the code.
- `HaloCatalogue.__getitem__` with a slice passes the positions
  `range(*slice.indices(len(self)))` themselves to `_get_halo_cached` as halo
  IDs (pynbody/halo/__init__.py:318). So `catalogue[0:2]` asks for halos 0 and
  1, not for the first two IDs of the catalogue. `Catalogues.SliceAll` states
  this.
- The IndexList comments promise boundaries in strictly ascending order. The
  code checks only `np.diff(boundaries) >= 0`, which lets empty objects
  through (pynbody/halo/__init__.py:140-141). The model follows the check.
- A comment at pynbody/halo/ahf.py:147 calls `np.argsort(-npart)` stable.
  With numpy's default kind it is not, so halos with equal `npart` may be
  numbered in any order. `AhfFiles.SetupHaloNumbering` takes the sort as a
  parameter and proves only what holds for every argsort.

## Model

| member | source | states |
|---|---|---|
| IndexLists.FromPartsSpec | pynbody/halo/__init__.py:128-145 | Building from parts succeeds exactly when the object numbers are distinct and there is at least one of them, the boundaries are non-decreasing and as many as the numbers, and the last boundary is within `particle_ids`; the parts are then stored unchanged. Empty boundaries give IndexError; every other rejection is an AssertionError |
| IndexLists.DiffsNonNegativeIff | pynbody/halo/__init__.py:141 | `(np.diff(b) >= 0).all()` holds iff `b` is non-decreasing |
| Seqs.UniqueLengthIffDistinct | pynbody/halo/__init__.py:136 | `len(np.unique(u)) == len(u)` holds iff `u` has no repeated value |
| Seqs.Unique | pynbody/halo/__init__.py:126 | `np.unique` is strictly ascending and has exactly the values of its input |
| Seqs.StableArgsortCorrect | pynbody/halo/__init__.py:125 | The mergesort argsort is a permutation of the positions, ordered by (ID, position) |
| Seqs.StableArgsortUnique | pynbody/halo/__init__.py:125 | Any permutation ordered by (ID, position) is that argsort: the stable order is unique |
| Seqs.StableArgsortArgsorts | pynbody/halo/ahf.py:147 | The stable argsort is one of the orders `np.argsort` may return, so the sorts the numbering admits include a real one |
| Seqs.Gather | pynbody/halo/__init__.py:127 | `a[p]` has one entry per index in `p`, namely `a[p[i]]` |
| Seqs.SearchSortedPartition | pynbody/halo/__init__.py:127 | The left binary search returns the point where the values stop being below the key |
| Seqs.SearchSorted | pynbody/halo/__init__.py:127 | `np.searchsorted` returns an insertion point within the array |
| IndexLists.FromObjectIdsValid | pynbody/halo/__init__.py:121-127 | An IndexList built from a per-particle array passes the validity checks of the parts constructor, and its object numbers ascend strictly |
| IndexLists.FromObjectIdsBoundary | pynbody/halo/__init__.py:127 | `boundaries[k]` is the number of particles whose ID is below the k-th distinct ID, i.e. the first sorted position holding that ID |
| IndexLists.FromObjectIdsMembers | pynbody/halo/__init__.py:121-127 | The particles of the k-th object are exactly the positions holding its ID, in ascending order |
| IndexLists.ObjOffset | pynbody/halo/__init__.py:152-157 | A found offset is in range and holds the requested number; a miss is a KeyError |
| IndexLists.ObjOffsetComplete | pynbody/halo/__init__.py:152-157 | With ascending object numbers the lookup succeeds exactly for the numbers present |
| IndexLists.SliceEnd | pynbody/halo/__init__.py:159-167 | An object's slice ends at or after its start and within `particle_ids` |
| IndexLists.GetIndexListSpec | pynbody/halo/__init__.py:147-167 | A lookup of the number at offset `k` gives `particle_ids[boundaries[k]:boundaries[k+1]]`, or up to the end for the last object, and with ascending numbers it always succeeds |
| IndexLists.GetIndexListFromObjectIds | pynbody/halo/__init__.py:121-167 | For an IndexList built from `a`, `get_index_list(id)` is `np.where(a == id)[0]` when `id` occurs in `a` and a KeyError otherwise |
| IndexLists.OrderingSpec | pynbody/halo/__init__.py:174-175 | The write order lists every object once, longest first, equal lengths by ascending offset |
| IndexLists.Ordering | pynbody/halo/__init__.py:174-175 | `np.argsort(-lengths, kind='stable')` names only offsets of existing objects |
| IndexLists.WriteAllSpec | pynbody/halo/__init__.py:183 | After `arr[ids] = v` every addressed position holds `v` and every other keeps its value; it fails, with IndexError, exactly when an index is out of range |
| IndexLists.WriteAll | pynbody/halo/__init__.py:183 | `arr[ids] = v` keeps the array's length, and its only exception is IndexError |
| IndexLists.WriteMembers | pynbody/halo/__init__.py:183 | The in-place masked write on an array leaves what `WriteAllSpec` describes, and reports failure exactly when numpy raises |
| IndexLists.PaintSpec | pynbody/halo/__init__.py:180-183 | The write loop fails exactly when some written object has an out-of-range particle; otherwise each position holds the ID of the last object in the order that addresses it, or its old value |
| IndexLists.Paint | pynbody/halo/__init__.py:180-183 | The loop of writes keeps the array's length, and its only exception is IndexError |
| IndexLists.GetObjectIdPerParticle | pynbody/halo/__init__.py:169-185 | The loop over a filled array computes the group array function |
| IndexLists.GroupArray | pynbody/halo/__init__.py:169-185 | A group array has one entry per particle of the simulation |
| IndexLists.GroupArrayFailure | pynbody/halo/__init__.py:169-185 | `get_object_id_per_particle` raises IndexError exactly when some object lists a particle outside the simulation |
| IndexLists.LastCoverBeats | pynbody/halo/__init__.py:172-183 | Under the longest-first order, the last object covering a position is shorter than every other object covering it, or as long with a larger offset |
| IndexLists.GroupArrayWinner | pynbody/halo/__init__.py:169-185 | The result has `sim_length` entries; a particle in no object holds `fill_value`; otherwise it holds the ID of a covering object that beats all other covering objects (the smallest object, ties to the later offset) |
| IndexLists.GroupArrayRoundTrip | pynbody/halo/__init__.py:121-185 | Round trip: `IndexList(object_id_per_particle=a).get_object_id_per_particle(len(a))` is `a` |
| Seqs.Positions | pynbody/halo/__init__.py:403 | `np.where(a == v)[0]`: strictly ascending positions, all holding `v`, and every position holding `v` is listed |
| Catalogues.AllHalos | pynbody/halo/__init__.py:261-269 | The catalogue's `_get_index_list_all_halos` gives a valid IndexList when it does not raise; for a `GrpCatalogue` it is built from the array (lines 399-400) |
| Catalogues.LoadAllSpec | pynbody/halo/__init__.py:234-237 | `load_all` keeps the cache consistent; it calls the hook exactly when the cache is falsy; it succeeds iff the cache was truthy or the hook succeeds, and then caches the hook's IndexList; a failing hook leaves the cache unchanged |
| Catalogues.LoadAllCall | pynbody/halo/__init__.py:234-237 | A `load_all` that succeeds leaves an IndexList cached |
| Catalogues.LoadAllIdempotent | pynbody/halo/__init__.py:234-237 | Once `load_all` has left a truthy cache, a second call changes nothing and does not call the hook |
| Catalogues.LoadAllRepeatsForEmpty | pynbody/halo/__init__.py:236 | A cached IndexList with no halos is falsy, so `load_all` calls the hook again, while `len` answers 0 from the cache without calling it (lines 243-245) |
| Catalogues.NumHalosMatchesIds | pynbody/halo/__init__.py:243-259 | `len(catalogue)` succeeds iff the list of halo IDs does and then equals its length; with anything cached it does not call the hook |
| Catalogues.GrpHaloIds | pynbody/halo/__init__.py:254-259 | For a `GrpCatalogue` the halo IDs are the distinct values of the array in ascending order, the `ignore` value included |
| Catalogues.OneHaloSpec | pynbody/halo/__init__.py:275-280 | Whatever is cached, `_get_index_list_one_halo(i)` gives the particles a fresh load would give (for a `GrpCatalogue`, lines 402-403), and keeps the cache consistent |
| Catalogues.RouteAgreesAllAtOnce | pynbody/halo/__init__.py:282-286 | For the default one-halo route, the most efficient route gives what the one-halo route gives |
| Catalogues.GrpRoutesAgree | pynbody/halo/__init__.py:399-403 | For a `GrpCatalogue`, `np.where(arr == i)[0]` equals `IndexList(object_id_per_particle=arr).get_index_list(i)` for every ID present; for an absent ID the direct route gives no particles and the IndexList raises KeyError, so the most efficient route raises exactly when the cache is truthy |
| Catalogues.GrpGroupArrayAgrees | pynbody/halo/__init__.py:405-409 | `GrpCatalogue.get_group_array()` returns its array, which is what the default implementation (lines 362-368) would compute from the catalogue's IndexList |
| Catalogues.DefaultGroupArray | pynbody/halo/__init__.py:362-368 | The default `get_group_array()` is the hook's IndexList's group array with fill value -1, or the hook's exception |
| Catalogues.SliceIndicesSpec | pynbody/halo/__init__.py:316-318 | `range(*slice.indices(n))` yields positions in `[0, n)` only, in steps of the slice's step; a zero step is the only error (ValueError) |
| Catalogues.SliceAll | pynbody/halo/__init__.py:318 | `catalogue[:]` visits the positions `0 .. n-1` and `catalogue[::-1]` visits them backwards; positions, not halo IDs, are passed to `_get_halo_cached` |
| Catalogues.RangeUnit | pynbody/halo/__init__.py:318 | `range(start, stop)` is every integer from `start` up to `stop`, in order |
| Catalogues.Max | pynbody/halo/__init__.py:332 | `iord.max()` is an element of `iord` and no element exceeds it |
| Catalogues.ScatterSpec | pynbody/halo/__init__.py:333 | With in-range IDs, `table[iord] = np.arange(len(iord))` maps each ID to the last position holding it and leaves other entries unwritten |
| Catalogues.ScatterFails | pynbody/halo/__init__.py:333 | The scatter raises exactly when some ID is outside the range numpy accepts for the table (below `-len` or at least `len`) |
| Catalogues.EmptyTable | pynbody/halo/__init__.py:332 | `np.empty(iord.max()+1)` exists exactly when `iord` is non-empty and the size is not negative; it then has `max+1` unwritten entries, else a ValueError |
| Catalogues.Scatter | pynbody/halo/__init__.py:333 | The scatter keeps the table's length, and its only exception is IndexError |
| Catalogues.IordTableInverts | pynbody/halo/__init__.py:326-333 | With distinct non-negative IDs the table inverts `iord`: ID `iord[j]` maps to file position `j` |
| Catalogues.Halo.constructor | pynbody/halo/__init__.py:45-52 | A halo records its ID and its particle list |
| Catalogues.HaloCatalogue.constructor | pynbody/halo/__init__.py:229-232 | A new catalogue (also a `GrpCatalogue`, lines 387-397) has nothing cached and has not called the hook |
| Catalogues.HaloCatalogue.LoadAll | pynbody/halo/__init__.py:234-237 | `load_all` updates the cache exactly as `LoadAllSpec` describes, and touches nothing else |
| Catalogues.HaloCatalogue.HaloIds | pynbody/halo/__init__.py:254-259 | `_get_halo_ids` loads all halos and returns the cached object numbers, or the hook's exception |
| Catalogues.HaloCatalogue.NumHalos | pynbody/halo/__init__.py:243-247 | `len(catalogue)`: the cached IndexList's length when one is cached, even an empty one; otherwise the number of halo IDs |
| Catalogues.HaloCatalogue.IndexListOneHalo | pynbody/halo/__init__.py:275-280 | The particles of halo `i` after `load_all`, equal to a fresh load's (for a `GrpCatalogue`, lines 402-403) |
| Catalogues.HaloCatalogue.IndexListViaMostEfficientRoute | pynbody/halo/__init__.py:282-286 | The cached IndexList when truthy, otherwise the one-halo route |
| Catalogues.HaloCatalogue.HaloCached | pynbody/halo/__init__.py:290-297 | A memoised halo is returned as the same object without calling the hook; otherwise a fresh halo with ID `i` and the one-halo particles is built and memoised; memoised halos are never dropped or replaced |
| Catalogues.HaloCatalogue.HalosFor | pynbody/halo/__init__.py:290-320 | Consuming the halo generator returns, for each requested ID in turn, the memoised halo with that ID and its particles; it fails exactly when some requested ID does not resolve to particles, with the exception of the first such ID |
| Catalogues.HaloCatalogue.GetSlice | pynbody/halo/__init__.py:316-318 | `catalogue[start:stop:step]` returns the halos at the slice's positions over `len(catalogue)`, each memoised under that position; an exception of `len` or of `slice.indices` (a zero step is a ValueError) is passed on as is; otherwise it fails exactly when some position does not resolve as a halo ID, with such a position's exception |
| Catalogues.HaloCatalogue.Iter | pynbody/halo/__init__.py:310-313 | `iter(catalogue)` returns every halo of the loaded IndexList in ID order, or the hook's exception; once the IDs are loaded it succeeds exactly when every loaded ID resolves to its particles |
| Catalogues.LoadedIdsResolve | pynbody/halo/__init__.py:310-313 | When the loaded halo IDs ascend, as they always do for a `GrpCatalogue`, every one of them resolves, so iteration cannot fail after the load |
| Catalogues.HaloCatalogue.GetGroupArray | pynbody/halo/__init__.py:362-368 | The default group array, or the family's part of the array for a `GrpCatalogue` (lines 405-409) |
| Catalogues.HaloCatalogue.LoadCopy | pynbody/halo/__init__.py:370-375 | The particles handed to the partial loader are those of the most efficient route |
| Catalogues.HaloCatalogue.InitIordToFpos | pynbody/halo/__init__.py:326-342 | Once the map exists nothing changes; without an `iord` array the map is the identity; an empty `iord` or a negative size is a ValueError that leaves the map unset; otherwise the `np.empty` table is assigned first, so a scatter that raises IndexError leaves that unwritten table in place, and a scatter that succeeds leaves the scattered table |
| AhfParticles.Mask | pynbody/halo/ahf.py:275-277 | A family mask (also lines 291 and 295-296) is true exactly at the entries within the family's number range, computed from the data before any change |
| AhfParticles.AddWhere | pynbody/halo/ahf.py:281-289 | `data[np.where(mask)] += delta` on the array moves exactly the masked entries by `delta` |
| AhfParticles.AhfToPynbodyParticleIds | pynbody/halo/ahf.py:255-299 | The in-place masked updates leave every entry moved by the offset of the AHF family it started in |
| AhfParticles.RemapAll | pynbody/halo/ahf.py:255-299 | The translation of an array works entry by entry, each entry translated by the family it starts in, and keeps the length |
| AhfParticles.PlainBijection | pynbody/halo/ahf.py:290-293 | In the default branch AHF dark, star and gas land on pynbody's dark, star and gas ranges of the gas/dark/star order; the translation is a bijection of `[0, N)` with an explicit inverse |
| AhfParticles.NchiladaBijection | pynbody/halo/ahf.py:294-298 | For Nchilada, dark stays and star and gas swap places behind it; again a bijection of `[0, N)` |
| AhfParticles.RamsesFamilies | pynbody/halo/ahf.py:262-289 | For Ramses without extra families nothing moves; with extra families each AHF family lands at its own family slice's start, keeping its position within the family |
| AhfParticles.Take | pynbody/halo/ahf.py:229-234 | `np.fromfile(f, sep=" ", count=n)` reads a prefix of the file's integers, all of them for a negative count (also line 246) |
| AhfParticles.EveryOther | pynbody/halo/ahf.py:234 | `data[::2]` keeps the entries at even positions |
| AhfParticles.LoadParticleBlock | pynbody/halo/ahf.py:225-253 | The read, the in-place translation and the sort compute the particle block function |
| AhfParticles.ParticleBlockSpec | pynbody/halo/ahf.py:225-253 | Every block is sorted ascending; it holds `nparts` particles when the file has enough; in the new format its values are the translated first column (every other integer), in the old format the integers as read |
| Seqs.SortCorrect | pynbody/halo/ahf.py:252 | `data.sort()` gives a non-decreasing permutation of the data |
| AhfParticles.BoundaryTableSpec | pynbody/halo/ahf.py:310-311 | The first halo starts at 0; halo `k` spans `npart[k]` particles; each halo starts where the previous ends; the last ends at `sum(npart)` |
| AhfParticles.BoundaryTable | pynbody/halo/ahf.py:310-311 | The boundary table has one row per halo |
| AhfParticles.TableRow | pynbody/halo/ahf.py:310-311 | Row `k` of the boundary table is the running total before `k` and after `k` |
| AhfParticles.Flatten | pynbody/halo/ahf.py:312-317 | The particle array left by the loop has `sum(npart)` entries; a block that cannot fill its halo's slice is a ValueError |
| AhfParticles.Expand | pynbody/halo/ahf.py:317 | A block assigned to a slice of `n` entries fills exactly `n` entries |
| AhfParticles.FlattenSlices | pynbody/halo/ahf.py:312-317 | Each halo's slice of the particle array, as the boundary table gives it, is that halo's block (stretched by broadcasting when it has one entry) |
| AhfParticles.WriteSlice | pynbody/halo/ahf.py:317 | `ids[start:start+len(v)] = v` on the array keeps the prefix and writes `v` after it |
| AhfParticles.GetAllParticleIndices | pynbody/halo/ahf.py:309-320 | `_get_all_particle_indices` succeeds iff there is at least one halo and every block fits its slice, and then returns the filled particle array with the boundary table; with no halos, `boundaries[-1,1]` raises IndexError; a block that does not fit raises ValueError |
| AhfFiles.IsNewFormatSpec | pynbody/halo/ahf.py:170-174 | With no `z`, or with nothing or another `z` just before the last one, the check raises IndexError; otherwise the format is new exactly when the character before the last `z` is `.` |
| AhfFiles.SetupHaloNumberingSpec | pynbody/halo/ahf.py:133-157 | Exactly the five documented keywords are accepted and any other is a ValueError; a length order without an `npart` column is a KeyError; for any sort behaving as `np.argsort`, the length orders list every halo once by non-increasing `npart`, from 0 or, for `-v1`, from 1; the order among equal `npart` is left to the sort |
| AhfFiles.CounterMatch | pynbody/halo/ahf.py:340-341 | A match of `\([0-9]*\)` at the start of a string covers at least the two parentheses and lies within the string |
| AhfFiles.DigitRun | pynbody/halo/ahf.py:340 | The `[0-9]*` part of the pattern matches the longest run of digits at the start |
| AhfFiles.StripCounterOfColumn | pynbody/halo/ahf.py:340-341 | Stripping `(digits)` from a column title `name(k)` gives back `name` |
| AhfFiles.HeaderFields | pynbody/halo/ahf.py:339 | Removing `#` from the header AHF writes and splitting it gives the column titles |
| AhfFiles.HeaderKeysOfHeaderLine | pynbody/halo/ahf.py:337-348 | Round trip: the header line written for column names gives those names back as keys, in both format revisions |
| PyStrings.Split | pynbody/halo/ahf.py:339 | `str.split()` yields non-empty tokens without whitespace |
| PyStrings.SplitKeepsText | pynbody/halo/ahf.py:339 | The tokens of `str.split()`, run together, are exactly the non-whitespace characters of the input |
| PyStrings.SplitJoin | pynbody/halo/ahf.py:357 | Round trip: splitting tokens joined by single spaces gives the tokens back |
| PyStrings.Remove | pynbody/halo/ahf.py:339 | `s.replace(c, "")` leaves no `c` and only characters of `s` |
| PyStrings.SplitOnJoin | pynbody/halo/ahf.py:171 | `c.join(s.split(c)) == s`, with one more piece than separators |
| PyStrings.JoinOnSplit | pynbody/gadgethdf.py:220 | `s.split(c)` undoes `c.join(pieces)` when no piece holds `c` |
| PyStrings.ParseInt | pynbody/halo/ahf.py:356 | `int(token)` either gives an integer or raises ValueError |
| PyStrings.ParseShowInt | pynbody/halo/ahf.py:356 | Round trip: `int(str(n)) == n` |
| AhfFiles.ParseValues | pynbody/halo/ahf.py:354-358 | A line's values are one per token, the first bad token raising ValueError |
| AhfFiles.ParseValueOfInt | pynbody/halo/ahf.py:354-358 | A token written as an integer is never taken for a float and is read back as that integer |
| AhfFiles.EmptyColumns | pynbody/halo/ahf.py:349 | `{k: [] for k in keys}` has exactly the keys |
| AhfFiles.AppendRow | pynbody/halo/ahf.py:364-365 | Appending one line's values keeps the set of keys |
| AhfFiles.AppendRows | pynbody/halo/ahf.py:364-365 | Appending the rows of all lines keeps the set of keys |
| AhfFiles.AppendRowAt | pynbody/halo/ahf.py:364-365 | With distinct keys, one line appends to key `j`'s list exactly its value `j`, when the line has one |
| AhfFiles.ParseLines | pynbody/halo/ahf.py:353-362 | Parsed data lines, one row per line |
| AhfFiles.LoadColumns | pynbody/halo/ahf.py:349-365 | The loop over the lines computes the table: the first parse error raised, otherwise the rows appended |
| AhfFiles.AppendValues | pynbody/halo/ahf.py:364-365 | The `zip(keys, values)` loop appends the shorter of the two runs |
| AhfFiles.LoadHaloProperties | pynbody/halo/ahf.py:330-368 | `_load_ahf_halo_properties` as a loop computes the halo property table function |
| AhfFiles.ColumnsOfDistinctKeys | pynbody/halo/ahf.py:349-365 | With distinct keys, each key's list is its column: one entry per data line that reaches that column, in file order |
| AhfFiles.HaloPropertiesSpec | pynbody/halo/ahf.py:330-368 | The table has a list for every key and no other; the halo count is the number of data lines; the keys are those of the header; with distinct keys each list is its column |
| AhfFiles.ParseInts | pynbody/halo/ahf.py:384-387 | The integers of a line, one per token, or ValueError |
| AhfFiles.LookUpAll | pynbody/halo/ahf.py:388-389 | The AHF numbers of the children are mapped to file indices, and those to pynbody numbers, entry by entry; the lookup raises KeyError exactly when some entry is missing from the map |
| AhfFiles.Initial | pynbody/halo/ahf.py:379-381 | One empty child list and one parent entry per halo |
| AhfFiles.NewParent | pynbody/halo/ahf.py:380-381 | `parent` is a fresh array of -1, one per halo |
| AhfFiles.WriteParentsSpec | pynbody/halo/ahf.py:392-393 | When no write raises, every listed child's parent is the halo's number and every other entry is unchanged |
| AhfFiles.WriteParents | pynbody/halo/ahf.py:392-393 | The writes keep the array's length, and their only exception is IndexError |
| AhfFiles.WriteParentsInPlace | pynbody/halo/ahf.py:392-393 | The ordered writes to the array compute the parent-write function, reporting the IndexError |
| AhfFiles.Pairs | pynbody/halo/ahf.py:383 | `zip(lines[::2], lines[1::2])` has one pair per two lines, an unpaired last line dropped |
| AhfFiles.Entries | pynbody/halo/ahf.py:383-389 | All pairs parse, one entry each |
| AhfFiles.StepInPlace | pynbody/halo/ahf.py:384-393 | One turn of the loop on the list and the array computes the step function |
| AhfFiles.Apply | pynbody/halo/ahf.py:391-393 | The assignments of one pair keep one child list and one parent per halo |
| AhfFiles.Step | pynbody/halo/ahf.py:384-393 | One turn of the loop keeps one child list and one parent per halo |
| AhfFiles.LoadSubstructure | pynbody/halo/ahf.py:370-393 | `_load_ahf_substructure` as a loop computes the substructure function, keeping what was written before an exception |
| AhfFiles.RunStopped | pynbody/halo/ahf.py:383-393 | Once a pair raises, later pairs change nothing |
| AhfFiles.Run | pynbody/halo/ahf.py:383-393 | The whole loop keeps one child list and one parent per halo |
| AhfFiles.RunSpec | pynbody/halo/ahf.py:379-393 | A run that raises nothing parses every pair, and leaves each halo's parent as the number of the last pair listing it as a child (or -1) and each halo's children as its last pair's list |
| AhfFiles.SubstructuresSpec | pynbody/halo/ahf.py:370-393 | A substructure file that raises nothing is non-empty, has its count line skipped unless that line has two tokens, and installs parents and children as `RunSpec` describes |
| Legacy.Kept | pynbody/halo/legacy.py:86-87 | Only records with `indstart >= 0` remain, and every such record remains |
| Legacy.KeptAppend | pynbody/halo/legacy.py:86-87 | The filter keeps the records' relative order |
| Legacy.KeptAll | pynbody/halo/legacy.py:86-87 | A file whose starts are all non-negative is kept whole |
| Legacy.SortRecords | pynbody/halo/legacy.py:90 | The ascending sort is a permutation of the records |
| Legacy.SortRecordsSorted | pynbody/halo/legacy.py:90 | The ascending sort is ordered by (`num_p`, id, start) |
| Legacy.Reverse | pynbody/halo/legacy.py:90 | `s[::-1]` reverses the records, keeping them all |
| Legacy.ReverseAscending | pynbody/halo/legacy.py:90 | Reversing an ascending run gives a descending one |
| Legacy.SortIndexSpec | pynbody/halo/legacy.py:89-90 | Sorting through the reversed view gives a permutation of the records with `num_p` non-increasing |
| Legacy.ReadFrom | pynbody/halo/legacy.py:37-38 | Reading `count` int64 from position `start` gives that window of the file; a negative count reads to the end; the end of the file cuts the read short |
| Seqs.NormIndex | pynbody/halo/legacy.py:35 | numpy indexing `a[i]` accepts exactly `-n <= i < n`, a negative index counting from the end |
| Legacy.HaloParticlesSpec | pynbody/halo/legacy.py:34-42 | Halo `num` exists exactly for numpy-valid indices of the records; its particles are its window sorted, `num_p - 1` of them when the file holds that many |
| Legacy.ParseFamily | pynbody/halo/legacy.py:92-103 | Exactly the four family names are known; any other is a TypeError |
| Legacy.FamilyFilter | pynbody/halo/legacy.py:113-118 | The filter keeps exactly the particles in the family's index range: dark below `ndark`, gas in `[ndark, ndark+ngas)`, star and BH from `ndark+ngas` |
| Legacy.SelectionSpec | pynbody/halo/legacy.py:110-118 | A halo contributes exactly its read particles in the family's range |
| Legacy.Selections | pynbody/halo/legacy.py:110-118 | One selection per halo record |
| Legacy.MarkIn | pynbody/halo/legacy.py:119-121 | The `np.in1d` write keeps the array's length |
| Legacy.PaintHaloSpec | pynbody/halo/legacy.py:119-123 | One halo's write fails only for a dark index out of range; otherwise every position it marks holds its index and every other position is unchanged |
| Legacy.PaintHalo | pynbody/halo/legacy.py:119-123 | One halo's write keeps the array's length, and its only exception is IndexError |
| Legacy.LastMark | pynbody/halo/legacy.py:110-123 | The last halo marking a position: it marks the position and no later halo does |
| Legacy.PaintHalosSpec | pynbody/halo/legacy.py:109-123 | The loop fails exactly when a dark halo has an index outside the array; otherwise each position holds the index of the last halo writing it, or its old value |
| Legacy.PaintHalos | pynbody/halo/legacy.py:109-123 | The loop of writes keeps the array's length, and its only exception is IndexError |
| Legacy.GroupArraySpec | pynbody/halo/legacy.py:92-124 | An unknown family is a TypeError; a result has the target's length and each entry is the index of the last halo claiming that particle, or -1 |
| Legacy.DarkGroupArrayTotal | pynbody/halo/legacy.py:115-123 | With non-negative particle entries and a dark target at least `ndark` long, the dark group array never raises |
| Legacy.RockstarCatalogue.constructor | pynbody/halo/legacy.py:17-29 | The catalogue holds the header count and the filtered records, sorted when `sort` is set |
| Legacy.RockstarCatalogue.InitIndex | pynbody/halo/legacy.py:81-87 | `_init_index` stores the header count and the records with a non-negative start |
| Legacy.RockstarCatalogue.SortIndexInPlace | pynbody/halo/legacy.py:89-90 | `_sort_index` replaces the records by their descending sort, keeping every start non-negative |
| Legacy.RockstarCatalogue.ParticlesForHalo | pynbody/halo/legacy.py:34-42 | `_get_particles_for_halo` gives the halo's sorted window |
| Legacy.RockstarCatalogue.LoadCopy | pynbody/halo/legacy.py:66-74 | `load_copy(i)` is a KeyError at or past the header count; below it, it fails exactly for indices outside the records, and otherwise hands the halo's particles and Rockstar id to the loader |
| Legacy.RockstarCatalogue.GetGroupArray | pynbody/halo/legacy.py:92-124 | The loop over halos writing into `ar` computes the group array function |
| Legacy.MarkInPlace | pynbody/halo/legacy.py:119-121 | The masked write on the array computes `MarkIn` |
| GadgetHdf.FindSpec | pynbody/gadgethdf.py:219-222 | A member lookup fails, with KeyError, exactly when no member has the name; otherwise it gives a member of that name |
| GadgetHdf.ChildSpec | pynbody/gadgethdf.py:219-222 | `group[name]` raises KeyError (ValueError on a dataset) or gives a member of the group |
| GadgetHdf.FindMember | pynbody/gadgethdf.py:221 | In a well-formed group each member is found under its own name |
| GadgetHdf.WalkAppend | pynbody/gadgethdf.py:219-222 | Walking a path in two parts is walking the first, then the second from where it ended |
| GadgetHdf.PathsWalk | pynbody/gadgethdf.py:199-203 | Every path `visititems` reports through `_append_if_array` (lines 61-63) is non-empty and walks to a dataset |
| GadgetHdf.ArrayKeys | pynbody/gadgethdf.py:199-203 | `_get_hdf_allarray_keys` lists one key per dataset path |
| GadgetHdf.ArrayKeysWalk | pynbody/gadgethdf.py:199-222 | Round trip: every listed key, split on `/` and walked, reaches a dataset |
| GadgetHdf.HdfDatasetWalk | pynbody/gadgethdf.py:206-222 | Any name but `Mass` is a plain walk of its `/`-separated segments |
| GadgetHdf.HdfDatasetMass | pynbody/gadgethdf.py:66-79 | A `Mass` lookup for a type with a positive header mass gives the dummy dataset with that value and the `Coordinates` count as length (lines 210-215) |
| GadgetHdf.AsSet | pynbody/gadgethdf.py:174 | `list(set(l))` has exactly the elements of `l`, without duplicates |
| GadgetHdf.AllParticleArraysSucceeds | pynbody/gadgethdf.py:164-174 | `_get_all_particle_arrays` succeeds iff the lookup succeeds in every file |
| GadgetHdf.AllParticleArraysSpec | pynbody/gadgethdf.py:164-174 | Its result is the union of the array keys of the type across all files |
| GadgetHdf.PresentTypes | pynbody/gadgethdf.py:114-117 | The kept types are exactly the configured types present in the first file |
| GadgetHdf.MyTypeMap | pynbody/gadgethdf.py:111-119 | No kept family is without types |
| GadgetHdf.MyTypeMapSpec | pynbody/gadgethdf.py:111-119 | The kept entries are exactly the configured families paired with their present types, for the families having any |
| GadgetHdf.SelectTypes | pynbody/gadgethdf.py:114-117 | The filter loop computes the present types |
| GadgetHdf.SelectFamilies | pynbody/gadgethdf.py:111-119 | The loop computes `my_type_map` |
| GadgetHdf.TypeCountSpec | pynbody/gadgethdf.py:124-126 | A type's count succeeds iff every file has the type with a non-scalar `Coordinates`, and is then the sum of their lengths |
| GadgetHdf.CountType | pynbody/gadgethdf.py:125-126 | The count loop over the files computes the type count |
| GadgetHdf.CountFamily | pynbody/gadgethdf.py:123-126 | The count loop over a family's types computes the family count |
| GadgetHdf.SliceStepSpec | pynbody/gadgethdf.py:122-131 | One family adds the slice from the previous end, sized by its count, and moves the start by that count |
| GadgetHdf.SliceStepOf | pynbody/gadgethdf.py:122-131 | The loop body for one family computes the slice step |
| GadgetHdf.SliceFamiliesSpec | pynbody/gadgethdf.py:121-131 | The slices are one per kept family, consecutive from 0, each sized by its family's count |
| GadgetHdf.SliceFamiliesKeys | pynbody/gadgethdf.py:129-130 | The gathered keys are the union over the kept families of the array keys of each family's last type in the first file |
| GadgetHdf.BuildLayoutSpec | pynbody/gadgethdf.py:111-135 | The layout has one consecutive slice per kept family, each sized by its family's count over all files, and its type map is `my_type_map` |
| GadgetHdf.BuildLayoutKeys | pynbody/gadgethdf.py:121-134 | The layout's disk keys are exactly the array keys of the kept families' last types in the first file |
| GadgetHdf.OpenLayout | pynbody/gadgethdf.py:111-135 | The constructor's loops compute the layout |
| GadgetHdf.ConsecutiveCovers | pynbody/gadgethdf.py:121-135 | Every particle index below `_num_particles` lies in exactly one family slice |
| GadgetHdf.ConsecutiveOrdered | pynbody/gadgethdf.py:121-135 | Later slices start no earlier than earlier ones stop, and all end by `_num_particles` |
| GadgetHdf.FamilyIndexSpec | pynbody/gadgethdf.py:159 | A family is found exactly when some entry carries its name, and the first such entry is found |
| GadgetHdf.FamilyIndex | pynbody/gadgethdf.py:159 | A found family is at a position of the type map carrying its name |
| GadgetHdf.TypesHaveSpec | pynbody/gadgethdf.py:158-162 | The family can load the key iff every one of its types lists it |
| GadgetHdf.AllFamiliesSpec | pynbody/gadgethdf.py:154-155 | For `fam=None` the answer is true iff every family can load the array |
| GadgetHdf.HasLoadableSpec | pynbody/gadgethdf.py:141-162 | For a name other than `mass` (which is always loadable, line 145-146) and an existing subgroup: a known family can load iff each of its types lists the translated name; an unknown family is a KeyError; `None` asks every family |
| GadgetHdf.SearchSpec | pynbody/gadgethdf.py:251-266 | The search stops at the first file whose lookup does not raise KeyError and returns that file's dataset; it fails with IndexError when every file raises KeyError |
| GadgetHdf.DimensionOfTable | pynbody/gadgethdf.py:268-278 | A dataset with one row per particle gives its row width, or 1 when one-dimensional |
| GadgetHdf.DimensionOfFlat | pynbody/gadgethdf.py:273-278 | A flat dataset three times as long as the particle list gives dimension 3 |
| GadgetHdf.DimensionOfDummy | pynbody/gadgethdf.py:268-278 | A header-mass dummy covering every particle gives dimension 1 |
| GadgetHdf.Blocks | pynbody/gadgethdf.py:299-305 | One block per file, in file order |
| GadgetHdf.Tile | pynbody/gadgethdf.py:314-316 | Broadcasting one three-value row over `m` rows gives `3m` values |
| GadgetHdf.SpliceSplice | pynbody/gadgethdf.py:315-322 | Two adjacent slice writes are one write of both |
| GadgetHdf.Splice | pynbody/gadgethdf.py:316-320 | A slice assignment keeps the array's length |
| GadgetHdf.PlaceFrame | pynbody/gadgethdf.py:316-320 | A block written into a family's view changes nothing outside the view |
| GadgetHdf.Place | pynbody/gadgethdf.py:307-320 | Writing one block keeps the array's length |
| GadgetHdf.Write | pynbody/gadgethdf.py:316-322 | Writing rows of a view keeps the array's length |
| GadgetHdf.CopyTypesFrame | pynbody/gadgethdf.py:296-322 | A family's copy writes only inside its own view |
| GadgetHdf.StepDirect | pynbody/gadgethdf.py:318-322 | A directly read block that fits is written at the cursor, and the cursor moves by its rows |
| GadgetHdf.Step | pynbody/gadgethdf.py:300-322 | One pass of the innermost loop keeps the array's length |
| GadgetHdf.CopyBlocksDirect | pynbody/gadgethdf.py:299-322 | Directly read blocks that fit are copied one after the other from the cursor; skipped files (no particles) write nothing and do not move the cursor |
| GadgetHdf.CopyBlocks | pynbody/gadgethdf.py:299-322 | The copy of a run of blocks keeps the array's length |
| GadgetHdf.CopyFiles | pynbody/gadgethdf.py:299-322 | The copy of one type keeps the array's length |
| GadgetHdf.CopyFilesDirect | pynbody/gadgethdf.py:299-322 | The same for the files of one type |
| GadgetHdf.CopyTypesDirect | pynbody/gadgethdf.py:298-322 | A family's types are filled one after the other from the cursor, which is not reset between types |
| GadgetHdf.CopyTypes | pynbody/gadgethdf.py:298-322 | The copy of one family keeps the array's length |
| GadgetHdf.CopyTypesBlocks | pynbody/gadgethdf.py:297-299 | A family's copy is one run over its types' blocks |
| GadgetHdf.CopyBlocksAppend | pynbody/gadgethdf.py:298-322 | Two runs of blocks in a row are one run |
| GadgetHdf.CopyBlocksErrored | pynbody/gadgethdf.py:299-322 | After an exception no block changes anything |
| GadgetHdf.CopyBlocksStopped | pynbody/gadgethdf.py:299-322 | The copy of one type ends with its first exception |
| GadgetHdf.CopyTypesStopped | pynbody/gadgethdf.py:298-322 | A family's copy ends with its first exception |
| GadgetHdf.CopyFamiliesNoError | pynbody/gadgethdf.py:296-322 | A copy that ends without an exception had none in any prefix of the families |
| GadgetHdf.CopyFamiliesStopped | pynbody/gadgethdf.py:296-322 | The copy of the families ends with the first exception |
| GadgetHdf.CopyFamiliesOne | pynbody/gadgethdf.py:296-298 | A single family is copied from cursor 0 |
| GadgetHdf.CopyFamiliesAt | pynbody/gadgethdf.py:296-297 | Family `j`'s copy starts from what the earlier families left, with its cursor reset to 0 |
| GadgetHdf.CopyFamiliesKeeps | pynbody/gadgethdf.py:296-322 | With the views in order, later families leave each earlier family's values as that family's copy left them |
| GadgetHdf.CopyFamilies | pynbody/gadgethdf.py:296-322 | The copy of all families keeps the array's length |
| GadgetHdf.CopyFamiliesDirect | pynbody/gadgethdf.py:296-322 | With the views in order and no exception, a family whose blocks are all read directly and fill its view ends up holding their values, in type order and file order |
| GadgetHdf.CopyWholeDirect | pynbody/gadgethdf.py:284-322 | One family covering a fresh array, whose blocks are all direct and fill it exactly, leaves their values in order |
| GadgetHdf.SliceJobs | pynbody/gadgethdf.py:294-296 | For the whole snapshot there is one view per family slice |
| GadgetHdf.PlanFits | pynbody/gadgethdf.py:284-296 | Every view of the plan lies inside the array created |
| GadgetHdf.PlanSlices | pynbody/gadgethdf.py:284-296 | For the whole snapshot, family `j`'s view covers exactly slice `j`'s values, and the views are in order |
| GadgetHdf.LoadedCreated | pynbody/gadgethdf.py:236-289 | A negative loadable check is an IOError; the array is created only after the check passed and the search found a first dataset, and its dimension is that dataset's |
| GadgetHdf.FillSize | pynbody/gadgethdf.py:284-289 | The new array holds `dy` values per particle of the snapshot or of the family; only an unknown family stops the creation |
| GadgetHdf.FillFamilyDirect | pynbody/gadgethdf.py:288-322 | A family array whose blocks are all direct and fill the family exactly holds their values, in type order and file order |
| GadgetHdf.FillWhole | pynbody/gadgethdf.py:284-322 | Loading every family creates a zeroed array of all the particles and copies the families' slice jobs into it, in slice order; those jobs fit the array |
| GadgetHdf.FillSliceDirect | pynbody/gadgethdf.py:284-322 | For the whole snapshot, a family whose blocks are all direct and fill its slice has their values at its slice's positions, unless some family raised |
| GadgetSnap.TypesHaveLoop | pynbody/gadgethdf.py:158-162 | The loop over a family's types, returning False at the first type lacking the name, computes the family predicate |
| GadgetSnap.SearchLoop | pynbody/gadgethdf.py:251-266 | The `while not_loaded` loop computes the search |
| GadgetSnap.WriteRun | pynbody/gadgethdf.py:316-320 | The element-wise slice assignment writes `xs` at `off` and nothing else |
| GadgetSnap.PlaceInto | pynbody/gadgethdf.py:307-322 | One block written into the array computes `Place` |
| GadgetSnap.CopyFilesInto | pynbody/gadgethdf.py:299-322 | The loop over files computes the copy of one type |
| GadgetSnap.CopyTypesInto | pynbody/gadgethdf.py:297-322 | The loop over a family's types, its cursor starting at 0, computes the family's copy |
| GadgetSnap.CopyFamiliesInto | pynbody/gadgethdf.py:296-322 | The loop over families, stopping at the first exception, computes the whole copy |
| GadgetSnap.GadgetHdfSnap.constructor | pynbody/gadgethdf.py:102-137 | A snapshot over a layout starts with no arrays, and its loadable keys are the layout's disk keys translated back |
| GadgetSnap.GadgetHdfSnap.Open | pynbody/gadgethdf.py:87-139 | Opening succeeds iff the layout can be built, with its exception otherwise, and gives a fresh snapshot over that layout |
| GadgetSnap.GadgetHdfSnap.FamilyHasLoadableArray | pynbody/gadgethdf.py:141-162 | `_family_has_loadable_array` computes the loadable predicate |
| GadgetSnap.GadgetHdfSnap.PrepareLoad | pynbody/gadgethdf.py:236-289 | The checks before creation either raise what the load function raises, or give the dimension and the plan of the array to create |
| GadgetSnap.GadgetHdfSnap.Store | pynbody/gadgethdf.py:284-289 | A created array is stored for the snapshot or for the family, and nothing else changes |
| GadgetSnap.GadgetHdfSnap.LoadArray | pynbody/gadgethdf.py:236-322 | `_load_array`: an exception before creation leaves the snapshot unchanged; otherwise the fresh array is stored for the snapshot or the family, with the dimension and the values the load function gives, and the copy's exception is returned |

## Left out

- All file and HDF5 input: `h5py.File`, `util.open_`, `seek`/`fromfile`/`readlines`, gzip and the `glob`/`os.path` probes. Their results are inputs: the HDF files are trees of groups and datasets, other files are sequences of lines or integers.
- `_can_load` of every reader, `_infer_ahf_basename`, `_list_candidate_ahf_basenames` and `_write_fpos`: they only probe or write the file system.
- `AHFCatalogue.__init__`'s keyword handling, logging and warnings, `_get_file_positions`, `_get_particle_indices_one_halo`, `get_properties_one_halo`, `get_properties_all_halos` and `_remap_host_halo_property`: they are file positioning and dictionary plumbing around the parts modelled.
- The `number_mapping` module is not part of this model. The numbering keyword dispatch states which mapper is chosen. The substructure loop takes the two mappers as finite maps, a missing key being a KeyError.
- AhfParticles.AhfToPynbodyParticleIds: the `use_iord` branch (ahf.py:260-261) calls `map_ignoring_order` of a mapper that is not part of this model; only the three family-offset branches are modelled.
- AhfFiles.ParseValues: a token containing `.`, `e`, `nan` or `inf` becomes a float value that keeps its text; floating-point parsing and arithmetic are not modelled.
- Python 2 `dict` order: `_type_map`, `my_type_map` and `_family_slice` are ordered sequences. `_family_slice` is assumed to iterate in `my_type_map`'s order, as both get the same keys in the same insertion order.
- `visititems` order: the keys are listed depth-first in member order; h5py's own order is not modelled.
- h5py attributes other than `MassTable`, and the group `name` attribute. The type number used for `MassTable` is the last character of the type's name.
- GadgetHdf.HdfDatasetMass: the lemma covers only a type name ending in its digit; the ValueError `int(...)` raises otherwise is in the model (`MassDummy`) but has no lemma of its own.
- `read_direct` and numpy assignment into an array slice: they are modelled by element counts and a single-row broadcast (`Tile`); other broadcasts and dtype conversion are not modelled.
- GadgetSnap.GadgetHdfSnap.constructor: `loadable_keys` is a set where the source returns a list, so its order and duplicates are not modelled.
- `dtype`, `set_default_units`, `_get_cosmo_factors`, units, `do_properties`, `do_units` and the derived abundance arrays: they are units and floating-point arithmetic.
- `_write` and `_write_array`: they only raise.
- `DummyHalo`, `get_dummy_halo`, `is_subhalo`, `contains` and `__contains__`: `is_subhalo` and `contains` use an attribute the base class never sets. Halo properties and `physical_units` are left out too; a `Halo` is its ID and its particle list.
- The weak reference to the base snapshot and `Halo`/`IndexedSubSnap` materialisation; `load_copy` hands the particle list to the loader, and the loading is not modelled.
- The Rockstar `_add_halo_id` correct mode (it reloads snapshots), `util` being used in legacy.py without an import, and the three-argument `Halo(...)` call of legacy.py:62; `_get_halo` there is not modelled.
- Legacy.RockstarCatalogue.GetGroupArray: the `BH` family's `tform < 0` selection of star particles is given as the target sequence; the float test is not modelled.
- IndexLists.FromPartsSpec: `boundaries` are natural numbers. The parts constructor's checks (pynbody/halo/__init__.py:141-145) also accept negative boundaries, which `_get_index_slice_from_obj_offset` would use as slice bounds counted from the end; such IndexLists are not modelled.
- AhfParticles.BoundaryTableSpec: `npart` entries are natural numbers. A negative count in the `.halos` file (ahf.py:356 parses any integer) would give negative or decreasing boundaries, negative slice bounds and a negative `fromfile` count; those files are not modelled. The same holds for AhfParticles.GetAllParticleIndices and AhfParticles.Flatten.
- Integer widths: numpy `int64` is modelled as unbounded `int`; overflow cannot occur for particle counts.
- Concurrency and the garbage contents of `np.empty` beyond marking unwritten entries.
