/** The transform main.go runs on its input (lines 55-66): group the fields
    unless asked to reorder freely, drop the padding entries, sort, and lay
    the result out again. The two ways the Go program panics on its way
    become errors. */
module Pipeline {
  import opened Fields
  import opened Outcomes
  import opened Alignment
  import opened Padding
  import opened Ordering
  import opened Grouping

  datatype Error =
    | NameWithoutDot  // `combine` slices a name with no '.'
    | ZeroAlignment   // `align` divides by an alignment of 0

  /** The fields handed to `optimize`: the input, grouped by the `rev`
      revision of `combine` unless `recurse`, with its padding entries
      dropped. */
  function Candidates(input: seq<Field>, recurse: bool, rev: Revision): seq<Field>
    requires recurse || NamesHaveDots(input)
  {
    Real(if recurse then input else Combine(rev, input))
  }

  /** `out` is a layout of the candidates `c`: its real entries are `c`'s
      fields (offsets aside, as a multiset) in sorted order, and `out` is
      exactly what `pad` makes of them. */
  ghost predicate Optimized(c: seq<Field>, out: seq<Field>) {
    && AlignsNonZero(Real(out))
    && out == Pad(Real(out))
    && multiset(UnplacedAll(Real(out))) == multiset(UnplacedAll(c))
    && Sorted(Real(out))
  }

  /** Permutations agree on every property that holds entry by entry. */
  lemma PermutationKeeps(s: seq<Field>, t: seq<Field>)
    requires multiset(s) == multiset(t)
    ensures NoPadding(t) ==> NoPadding(s)
    ensures AlignsNonZero(s) <==> AlignsNonZero(t)
  {
    forall i | 0 <= i < |s|
      ensures s[i] in t
    {
      assert s[i] in multiset(s);
    }
    forall i | 0 <= i < |t|
      ensures t[i] in s
    {
      assert t[i] in multiset(t);
    }
  }

  /** Laying out a sorted permutation of the candidates gives a layout of
      them in the sense of `Optimized`. */
  lemma PadOptimizes(c: seq<Field>, sorted: seq<Field>)
    requires NoPadding(c) && multiset(sorted) == multiset(c)
    requires Sorted(sorted) && AlignsNonZero(sorted)
    ensures Optimized(c, Pad(sorted))
  {
    PermutationKeeps(sorted, c);
    var out := Pad(sorted);
    PadKeepsFields(sorted, Offsetsof(sorted), 0);
    PadIdempotent(sorted);
    UnplacedPermutation(sorted, c);
    SortedIgnoresOffsets(sorted, Real(out));
  }

  /** main.go lines 52-66: an empty input yields nothing; a name without a
      '.' (when grouping) and an alignment of 0 among the candidates are
      the two failures; otherwise the result lays out a sorted permutation
      of the candidates. With `rev == AsWritten` this is the program's own
      sequence; `Corrected` runs it with the repaired `combine`. */
  method Transform(input: seq<Field>, recurse: bool, rev: Revision) returns (r: Result<seq<Field>, Error>)
    ensures |input| == 0 ==> r == Success([])
    ensures r == Failure(NameWithoutDot) <==> |input| > 0 && !recurse && !NamesHaveDots(input)
    ensures r == Failure(ZeroAlignment) <==>
      && |input| > 0
      && (recurse || NamesHaveDots(input))
      && !AlignsNonZero(Candidates(input, recurse, rev))
    ensures r.Success? && |input| > 0 ==> Optimized(Candidates(input, recurse, rev), r.value)
  {
    if |input| == 0 {
      return Success([]);
    }
    if !recurse && !NamesHaveDots(input) {
      return Failure(NameWithoutDot);
    }
    var fields := Candidates(input, recurse, rev);
    RealMembers(if recurse then input else Combine(rev, input));
    var sorted := Optimize(fields);
    PermutationKeeps(sorted, fields);
    if !AlignsNonZero(sorted) {
      return Failure(ZeroAlignment);
    }
    PadOptimizes(fields, sorted);
    r := Success(Pad(sorted));
  }

  /** An entry of a permutation with offsets erased matches some entry of
      the original in size and alignment. */
  lemma MatchingEntry(s: seq<Field>, c: seq<Field>, i: nat)
    requires multiset(UnplacedAll(s)) == multiset(UnplacedAll(c)) && i < |s|
    ensures exists j :: 0 <= j < |c| && c[j].size == s[i].size && c[j].align == s[i].align
  {
    UnplacedAllAt(s);
    UnplacedAllAt(c);
    var u := UnplacedAll(s)[i];
    assert u in multiset(UnplacedAll(c));
    var j :| 0 <= j < |c| && UnplacedAll(c)[j] == u;
    assert Unplaced(c[j]) == Unplaced(s[i]);
  }

  lemma OptimizedAligns(c: seq<Field>, out: seq<Field>)
    requires Optimized(c, out) && AlignsPositive(c)
    ensures AlignsPositive(Real(out))
  {
    var s := Real(out);
    forall i | 0 <= i < |s|
      ensures s[i].align > 0
    {
      MatchingEntry(s, c, i);
    }
  }

  /** A layout of candidates with positive alignments starts at 0, leaves
      no hole and no overlap (each entry ends where the next starts and
      spans its size), pads only right before a field, and puts every field
      on a multiple of its alignment. */
  lemma OptimizedLayout(c: seq<Field>, out: seq<Field>)
    requires Optimized(c, out) && AlignsPositive(c)
    ensures |out| > 0 ==> out[0].start == 0
    ensures Tiled(out) && GapsPrecedeFields(out)
    ensures forall f :: f in Real(out) ==> MultipleOf(f.start, f.align)
  {
    var s := Real(out);
    OptimizedAligns(c, out);
    RealMembers(out);
    PadTiles(s);
    PadLayout(s);
    PadKeepsFields(s, Offsetsof(s), 0);
    UnplacedAllAt(s);
    UnplacedAllAt(Real(Pad(s)));
    forall f | f in s
      ensures MultipleOf(f.start, f.align)
    {
      assert f in Real(Pad(s));
    }
  }

  /** A zero-sized candidate puts a zero-sized field first: at offset 0,
      spanning nothing. */
  lemma ZeroSizeFirst(c: seq<Field>, out: seq<Field>, k: nat)
    requires Optimized(c, out) && AlignsPositive(c)
    requires k < |c| && c[k].size == 0
    ensures |out| > 0 && !out[0].isPadding
    ensures out[0].size == 0 && out[0].start == 0 && out[0].end == 0
  {
    var s := Real(out);
    OptimizedAligns(c, out);
    RealMembers(out);
    UnplacedAllAt(c);
    assert Unplaced(c[k]) in multiset(UnplacedAll(s));
    UnplacedAllAt(s);
    var m :| 0 <= m < |s| && UnplacedAll(s)[m] == Unplaced(c[k]);
    assert s[m].size == 0;
    assert s[0].size == 0;
    PadLayout(s);
    assert Offsetsof(s)[0] == AlignUp(0, s[0].align);
    AlignUpFixesMultiples(0, s[0].align);
    PadTiles(s);
    assert Real(out)[0] == Placed(s[0], 0);
    TailNoPadding(s);
    assert out[0] == Real(out)[0] by {
      PadFromHead(s, Offsetsof(s), 0);
    }
  }

  /** Candidates of one alignment whose sizes are multiples of it are laid
      out with no padding at all, each field right after the previous one. */
  lemma UniformNoGaps(c: seq<Field>, out: seq<Field>, a: int)
    requires Optimized(c, out) && a > 0 && Uniform(c, a)
    ensures NoPadding(out)
    ensures forall i :: 0 <= i < |out| ==>
      out[i].start == SumSizes(out[..i]) && out[i].end == out[i].start + out[i].size
  {
    var s := Real(out);
    forall i | 0 <= i < |s|
      ensures s[i].align == a && s[i].size >= 0 && MultipleOf(s[i].size, a)
    {
      MatchingEntry(s, c, i);
    }
    assert Uniform(s, a);
    UniformLayoutHasNoGaps(s, a);
    RealMembers(out);
    assert NoPadding(out);
    RealOfPaddingFree(out);
  }

  /** With every entry padding, the grouped candidates are the one zero
      entry `combine` starts from, whose alignment is 0: grouping such an
      input fails. */
  lemma AllPaddingFails(input: seq<Field>, rev: Revision)
    requires |Real(input)| == 0
    ensures NamesHaveDots(input)
    ensures !AlignsNonZero(Candidates(input, false, rev))
  {
    RealMembers(input);
    assert forall i :: 0 <= i < |input| ==> input[i] in input;
    CombineNoRealFields(rev, input);
    RealSingleton(ZeroField);
  }

  /** One 4-byte field aligned to 4, four bytes of padding, and one 8-byte
      field aligned to 8. */
  const Reorderable := [
    Field("a", "int32", 0, 4, 4, 4, false),
    Field("pad", "", 4, 8, 4, 0, true),
    Field("b", "int64", 8, 16, 8, 8, false)]

  /** `a` and `b` with their offsets erased. */
  const A := Field("a", "int32", 0, 0, 4, 4, false)
  const B := Field("b", "int64", 0, 0, 8, 8, false)

  /** Sorting leaves one order for these two fields: `b` first, for its
      larger alignment. */
  lemma ReorderableOrder(out: seq<Field>, rev: Revision)
    requires Optimized(Candidates(Reorderable, true, rev), out)
    ensures UnplacedAll(Real(out)) == [B, A]
  {
    var a, b := Reorderable[0], Reorderable[2];
    assert Real(Reorderable) == [a, b];
    assert UnplacedAll([a, b]) == [A, B];
    var s := Real(out);
    var u := UnplacedAll(s);
    assert multiset(u) == multiset{A, B};
    assert |u| == 2 && |s| == 2;
    assert u == [u[0], u[1]];
    assert u[0] in multiset(u) && u[1] in multiset(u);
    UnplacedAllAt(s);
    assert u[0] != u[1];
    assert !Less(s[1], s[0]);
  }

  lemma ReorderableOffsets()
    ensures AlignsNonZero([B, A]) && Offsetsof([B, A]) == [0, 8]
  {
    var t := [B, A];
    assert AlignsNonZero(t);
    assert t[1..] == [A];
    assert [A][1..] == [];
    var p0 := AlignUp(0, 8);
    var p1 := AlignUp(8, 4);
    assert p0 == 0 && p1 == 8;
    assert OffsetsFrom([A], 8) == [p1] + OffsetsFrom([], 12);
    assert OffsetsFrom(t, 0) == [p0] + OffsetsFrom([A], 8);
  }

  /** `pad` puts `b` at 0 and `a` right after it, with no gap. */
  lemma ReorderableLayout()
    ensures AlignsNonZero([B, A])
    ensures Pad([B, A]) == [Field("b", "int64", 0, 8, 8, 8, false), Field("a", "int32", 8, 12, 4, 4, false)]
  {
    ReorderableOffsets();
    assert [B, A][1..] == [A];
    assert PadFrom([B, A], [0, 8], 0) == Chunk(B, 0, 0) + PadFrom([A], [8], 8);
    assert PadFrom([A], [8], 8) == Chunk(A, 8, 8) + PadFrom([], [], 12);
  }

  /** Its names have no '.', so grouping it fails; reordered freely, its
      only layout puts `b` at [0, 8) and `a` at [8, 12), with no padding. */
  lemma ReordersByAlignment(out: seq<Field>, rev: Revision)
    requires Optimized(Candidates(Reorderable, true, rev), out)
    ensures !NamesHaveDots(Reorderable)
    ensures out == [Field("b", "int64", 0, 8, 8, 8, false), Field("a", "int32", 8, 12, 4, 4, false)]
  {
    assert !HasDot(Reorderable[0].name);
    ReorderableOrder(out, rev);
    ReorderableLayout();
    assert UnplacedAll([B, A]) == [B, A];
    PadIgnoresOffsets(Real(out), [B, A]);
  }
}
