# structlayout-optimize, modelled in Dafny

`structlayout-optimize` reads a struct's field layout and proposes a new one. Each field carries a name, a type, start and end offsets, a size, an alignment, and a flag that marks synthetic padding. The tool works in three stages:

1. Grouping (`combine`). Unless it is asked to reorder freely (`-r`), it first collapses the fields of nested structs, named `T.a.x`, `T.a.y`, …, into one entry per run of consecutive fields that share the first two name components.
2. Ordering (`optimize`). It drops the padding entries and sorts the fields: zero-sized fields first, then by decreasing alignment, then by decreasing size.
3. Layout (`offsetsof` and `pad`). It lays the fields out again, rounding each offset up to the field's alignment (`align`) and filling the gaps with padding entries.

The model keeps the `Field` record as an immutable datatype and each stage as a pure function over sequences. The sort is an insertion-sort method that, like Go's `sort.Sort`, only swaps entries.

The modules follow the program's parts:

- `Fields`: the record, the padding filter and offset erasure.
- `Alignment`: `align`, with Go's truncating `%` written out.
- `Padding`: `offsetsof` and `pad`.
- `Ordering`: `byAlignAndSize.Less` and `optimize`.
- `Grouping`: `combine`.
- `GroupingFindings`: two concrete inputs on which `combine` misbehaves.
- `Pipeline`: the sequence in `main`, as the method `Transform`.

Integers are unbounded. Go's run-time panics become `Failure` results:

- `NameWithoutDot`: `p[:2]` is out of range when a name has no `.`.
- `ZeroAlignment`: `align` divides by an alignment of 0.

`combine` is modelled twice, as written and repaired (`Grouping.Revision`); see "## Findings". `Transform` takes the revision as a parameter. With `AsWritten` it is the program's own sequence; with `Corrected` it runs the same sequence with the repaired `combine`. Its contract holds for both.

Two behaviours of the code worth stating:

- Only an alignment of 0 is an error. A negative alignment does not make the Go program fail. `align` then rounds downwards (`Alignment.AlignUpSound`), and the layout properties are stated for positive alignments.
- `combine` groups consecutive runs, not distinct prefixes. A prefix that comes back after another one gets a second entry.

## Model

| member | source | states |
|---|---|---|
| Alignment.GoRemSound | structlayout/cmd/structlayout-optimize/main.go:187 | Go's `y % a` is smaller than `a` in magnitude, has the sign of `y`, and leaves a multiple of `a` |
| Alignment.AlignUpSound | structlayout/cmd/structlayout-optimize/main.go:184-188 | `align(x, a)` is a multiple of `a` for every nonzero `a`. For `a > 0` it is at least `x`, and for `x >= 0` it is also below `x + a`. For `a < 0` it lies below `x` |
| Alignment.AlignUpIsLeast | structlayout/cmd/structlayout-optimize/main.go:184-188 | for `x >= 0` and `a > 0`, no multiple of `a` at or above `x` is smaller than `align(x, a)`: it is the smallest `y >= x` with `y % a == 0` |
| Alignment.AlignUpFixesMultiples | structlayout/cmd/structlayout-optimize/main.go:184-188 | a position that is already aligned is left where it is |
| Padding.OffsetsRecurrence | structlayout/cmd/structlayout-optimize/main.go:172-182 | the first offset is the start position rounded up to the first field's alignment; each later offset is the previous offset plus the previous size, rounded up to the field's alignment |
| Padding.OffsetsAreAligned | structlayout/cmd/structlayout-optimize/main.go:175-178 | every offset is a multiple of its field's alignment |
| Padding.OffsetsNeverOverlap | structlayout/cmd/structlayout-optimize/main.go:175-179 | with positive alignments, each offset is at least the previous offset plus the previous field's size |
| Padding.OffsetsAreTight | structlayout/cmd/structlayout-optimize/main.go:172-182 | the first offset is 0 and none is negative. Each offset is the smallest multiple of its alignment at or after the end of the previous field, so it skips less than one alignment step |
| Padding.PadTiles | structlayout/cmd/structlayout-optimize/main.go:118-139 | the padded layout starts at 0. Every entry spans exactly its size and ends where the next one starts. A padding entry is never empty, never last, and always followed by a real field |
| Padding.PadKeepsFields | structlayout/cmd/structlayout-optimize/main.go:121-136 | once padding is dropped and offsets are erased, the output is the input, in order, whatever offsets were handed in |
| Padding.PadPlacesAtOffsets | structlayout/cmd/structlayout-optimize/main.go:121-136 | the i-th real entry of the output is the i-th input field moved to `offsetsof`'s i-th offset, with `End - Start == Size` |
| Padding.PadEndsAfterLastField | structlayout/cmd/structlayout-optimize/main.go:133-137 | the layout ends at the last field's offset plus its size, with no trailing padding |
| Padding.PadLayout | structlayout/cmd/structlayout-optimize/main.go:118-139 | for positive alignments: every field keeps its content, sits at its offset, and starts on a multiple of its alignment, and the layout ends right after the last field |
| Padding.PadIgnoresOffsets | structlayout/cmd/structlayout-optimize/main.go:118-139 | `pad` reads only the fields' sizes and alignments: inputs that differ only in offsets give the same layout |
| Padding.PadIdempotent | structlayout/cmd/structlayout-optimize/main.go:118-139 | dropping the padding of a padded layout and padding it again gives the same layout |
| Padding.UniformLayoutHasNoGaps | structlayout/cmd/structlayout-optimize/main.go:118-139 | fields of one alignment whose sizes are multiples of it get no padding, and each starts at the sum of the sizes before it |
| Ordering.LessIsKeyOrder | structlayout/cmd/structlayout-optimize/main.go:150-170 | `Less` is exactly the lexicographic order on (non-zero size, decreasing alignment, decreasing size) |
| Ordering.TiedIff | structlayout/cmd/structlayout-optimize/main.go:150-170 | two fields are tied, with neither before the other, exactly when their alignments and sizes are equal |
| Ordering.LessIsStrictWeakOrder | structlayout/cmd/structlayout-optimize/main.go:150-170 | `Less` is irreflexive and transitive, and ties are transitive, which is what `sort.Sort` needs |
| Ordering.SortedIgnoresOffsets | structlayout/cmd/structlayout-optimize/main.go:150-170 | the order depends only on sizes and alignments, so moving fields keeps a sorted list sorted |
| Ordering.AdjacentSorted | structlayout/cmd/structlayout-optimize/main.go:114-116 | a list with no adjacent pair out of order has no pair out of order |
| Ordering.Insert | structlayout/cmd/structlayout-optimize/main.go:145-148 | one insertion pass, by swaps only: a permutation that extends the sorted prefix by one and leaves the rest alone |
| Ordering.Optimize | structlayout/cmd/structlayout-optimize/main.go:114-116 | the result is a permutation of the input in which no field goes strictly before an earlier one |
| Grouping.DotFromFinds | structlayout/cmd/structlayout-optimize/main.go:88 | the search for `.` stops at the first `.` at or after its start, or at the end of the name |
| Grouping.PrefixShape | structlayout/cmd/structlayout-optimize/main.go:88-89 | for a dotted name, the two-component prefix is a leading part of the name with exactly one `.`, ending at the end of the name or before its second `.` |
| Grouping.PrefixIdempotent | structlayout/cmd/structlayout-optimize/main.go:88-89 | cutting a prefix to two components again changes nothing |
| Grouping.RunsFlatten | structlayout/cmd/structlayout-optimize/main.go:82-104 | reading the runs' members in order gives back the real fields |
| Grouping.RunsPartition | structlayout/cmd/structlayout-optimize/main.go:82-104 | the runs cut the real fields into maximal runs: all members of a run share one prefix, and neighbouring runs differ in prefix |
| Grouping.RunAlignIsMax | structlayout/cmd/structlayout-optimize/main.go:90-92 | a run's alignment is the largest among its members: none exceeds it and one has it |
| Grouping.ScanTracks | structlayout/cmd/structlayout-optimize/main.go:82-108 | loop invariant of both revisions: after any part of the input, the state holds one right entry per finished run and the group of the run in progress. Padding never starts or ends a run |
| Grouping.CombineRuns | structlayout/cmd/structlayout-optimize/main.go:77-112 | both revisions emit one entry per maximal run of consecutive real fields with the same prefix, in input order. Each entry is named by the prefix, typed `struct` exactly when the run has two or more members, starts where the run starts, and is no padding entry. The final entry's size is its extent, and its alignment is the largest among the last run's members |
| Grouping.CombineCorrected | structlayout/cmd/structlayout-optimize/main.go:77-112 | the repaired loop emits, for each run, the entry spanning from its first member's start to its last member's end, with size equal to that extent and the run's largest alignment |
| Grouping.CombineNoRealFields | structlayout/cmd/structlayout-optimize/main.go:78-110 | an input with no real field yields the single zero entry the loop starts from |
| Grouping.CombineLeaksAlign | structlayout/cmd/structlayout-optimize/main.go:90-99 | as written, every entry but the last gets the larger of its run's largest alignment and the alignment of the next run's first member |
| Grouping.DirectEnd | structlayout/cmd/structlayout-optimize/main.go:93-99 | as written, when a real field with a new prefix comes right after a real field, the entry for the run that ends there ends at the new field's start, and its size is its extent |
| GroupingFindings.AlignmentLeaks | structlayout/cmd/structlayout-optimize/main.go:90-99 | as written, `T.a` (alignment 1) followed by padding and `T.b` (alignment 4) is emitted with alignment 4. The repaired loop gives 1 |
| GroupingFindings.GroupEndsAtLastStart | structlayout/cmd/structlayout-optimize/main.go:93-110 | as written, a nested struct whose two 8-byte members span 16 bytes is emitted as ending at 8 with size 8 |
| GroupingFindings.GroupSpansMembers | structlayout/cmd/structlayout-optimize/main.go:93-110 | the repaired loop emits the same nested struct as ending at 16 with size 16 |
| Pipeline.Transform | structlayout/cmd/structlayout-optimize/main.go:52-66 | for either revision of `combine`: empty input gives an empty result. Grouping a name without `.` fails, and so does a candidate with alignment 0, each exactly when that happens. Any other result is `pad` applied to a sorted permutation of the candidates (the grouped or raw input without padding) |
| Pipeline.PadOptimizes | structlayout/cmd/structlayout-optimize/main.go:65-66 | padding a sorted permutation of padding-free candidates gives a layout of them: its real entries are the candidates, sorted, with new offsets |
| Pipeline.OptimizedLayout | structlayout/cmd/structlayout-optimize/main.go:58-66 | with positive alignments, the result starts at 0, has no hole or overlap, pads only right before a field, and puts every field on a multiple of its alignment |
| Pipeline.ZeroSizeFirst | structlayout/cmd/structlayout-optimize/main.go:150-156 | when any candidate has size 0, the layout opens with a zero-sized real field at offset 0 |
| Pipeline.UniformNoGaps | structlayout/cmd/structlayout-optimize/main.go:58-66 | candidates of one alignment, with sizes that are multiples of it, are laid out with no padding at cumulative offsets |
| Pipeline.AllPaddingFails | structlayout/cmd/structlayout-optimize/main.go:109-110 | under either revision, a non-empty, all-padding input is grouped into the zero entry, whose alignment of 0 makes the layout fail |
| Pipeline.ReordersByAlignment | structlayout/cmd/structlayout-optimize/main.go:55-66 | `[a int32 0-4, padding, b int64 8-16]`, reordered freely, has exactly one layout: `b` at [0, 8) then `a` at [8, 12), with no padding. Grouping it fails, since its names have no `.` |

## Left out

- Reading the field list from standard input, writing it as JSON or text, `log.Fatal` and flag parsing (main.go lines 13-21 and 44-51, 68-74): these are I/O. `recurse` is a parameter of `Transform`.
- `Field.String` (main.go lines 35-42): text formatting only.
- `int64` overflow: offsets, sizes and alignments are unbounded integers.
- Go's `sort.Sort` algorithm and the order it leaves tied fields in: `Optimize` is an insertion sort with the same contract (a permutation, sorted by `Less`). `Transform`'s contract admits any sorted permutation.
- No claim that the proposed order minimises padding. The ordering is a heuristic.
- Grouping.CombineRuns: for the loop as written, its contract and those of `Grouping.CombineLeaksAlign` and `Grouping.DirectEnd` leave one gap: the end and size of an entry whose run is followed by padding, and the end of the last entry. Such an entry keeps the end and size set by its last member that did not follow padding. When every later member followed padding, it keeps its first member's own end and size. No formula over the runs alone gives that value, since it depends on where padding sits inside the run. The repaired loop's entries are pinned down completely by `Grouping.CombineCorrected`.
- Padding inside a nested struct after its last member belongs to no group. This holds as written and in the repair, so a grouped entry can be shorter than the struct it stands for.

## Findings

| source | as written | input that shows it | evidently intended | confidence | as-written member | corrected member |
|---|---|---|---|---|---|---|
| structlayout/cmd/structlayout-optimize/main.go:90-99 | The group's alignment is widened by each real field's alignment before the prefix test, so the first field of the next run also widens the group being closed | `T.a` uint8 [0,1) align 1, padding [1,4), `T.b` uint32 [4,8) align 4: the entry for `T.a` gets alignment 4 | a group's alignment is the largest among its own members | high; not executed | GroupingFindings.AlignmentLeaks | Grouping.CombineCorrected |
| structlayout/cmd/structlayout-optimize/main.go:93-110 | A later member sets the group's end to its own start, never its end, and it does so only when a real field comes right before it. After padding, the end keeps its earlier value. So a group that is last, or followed by padding, ends at its last member's start, or earlier when padding precedes that member | `T.a.x` int64 [0,8), `T.a.y` int64 [8,16): the entry `T.a` is [0,8) with size 8 | a group spans from its first member's start to its last member's end | high; not executed | GroupingFindings.GroupEndsAtLastStart | Grouping.CombineCorrected |
