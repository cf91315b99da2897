/** Offset recomputation (main.go `offsetsof` and `pad`): each field of an
    ordered list is moved to the next position its alignment allows, and the
    gaps left by rounding are filled with synthetic padding entries. */
module Padding {
  import opened Fields
  import opened Alignment

  /** main.go `offsetsof`, continuing from the running position `o`: each
      offset is `o` rounded up to the field's alignment, and `o` then moves
      past the field. */
  function OffsetsFrom(fields: seq<Field>, o: int): (offs: seq<int>)
    requires AlignsNonZero(fields)
    ensures |offs| == |fields|
    decreases |fields|
  {
    if |fields| == 0 then []
    else
      var p := AlignUp(o, fields[0].align);
      [p] + OffsetsFrom(fields[1..], p + fields[0].size)
  }

  /** One step of the offsets in index form: the offset after field `i` is
      the end of field `i` rounded up to the next field's alignment. */
  lemma {:induction false} OffsetStep(fields: seq<Field>, o: int, i: nat)
    requires AlignsNonZero(fields) && i + 1 < |fields|
    ensures OffsetsFrom(fields, o)[i + 1]
            == AlignUp(OffsetsFrom(fields, o)[i] + fields[i].size, fields[i + 1].align)
    decreases i
  {
    TailNonZero(fields);
    var p := AlignUp(o, fields[0].align);
    var tail := OffsetsFrom(fields[1..], p + fields[0].size);
    assert OffsetsFrom(fields, o) == [p] + tail;
    if i > 0 {
      OffsetStep(fields[1..], p + fields[0].size, i - 1);
      assert fields[i] == fields[1..][i - 1];
    }
  }

  /** The offsets in index form: the first is the start position rounded
      up, and each later one is the end of the previous field rounded up. */
  lemma {:induction false} OffsetsRecurrence(fields: seq<Field>, o: int)
    requires AlignsNonZero(fields)
    ensures |fields| > 0 ==> OffsetsFrom(fields, o)[0] == AlignUp(o, fields[0].align)
    ensures forall i, j :: 0 <= i < j < |fields| && j == i + 1 ==>
              OffsetsFrom(fields, o)[j]
              == AlignUp(OffsetsFrom(fields, o)[i] + fields[i].size, fields[j].align)
  {
    forall i, j | 0 <= i < j < |fields| && j == i + 1
      ensures OffsetsFrom(fields, o)[j]
              == AlignUp(OffsetsFrom(fields, o)[i] + fields[i].size, fields[j].align)
    {
      OffsetStep(fields, o, i);
    }
  }

  /** Every offset is a multiple of its field's alignment. */
  lemma {:induction false} OffsetsAreAligned(fields: seq<Field>, o: int)
    requires AlignsNonZero(fields)
    ensures forall i :: 0 <= i < |fields| ==> MultipleOf(OffsetsFrom(fields, o)[i], fields[i].align)
  {
    OffsetsRecurrence(fields, o);
    var offs := OffsetsFrom(fields, o);
    forall i | 0 <= i < |fields|
      ensures MultipleOf(offs[i], fields[i].align)
    {
      if i > 0 {
        assert offs[i] == AlignUp(offs[i - 1] + fields[i - 1].size, fields[i].align);
        AlignUpSound(offs[i - 1] + fields[i - 1].size, fields[i].align);
      } else {
        AlignUpSound(o, fields[0].align);
      }
    }
  }

  function Offsetsof(fields: seq<Field>): (offs: seq<int>)
    requires AlignsNonZero(fields)
  {
    OffsetsFrom(fields, 0)
  }

  /** Every entry spans exactly its size and ends where the next one starts. */
  ghost predicate Tiled(out: seq<Field>) {
    && (forall i :: 0 <= i < |out| ==> out[i].end - out[i].start == out[i].size)
    && (forall i, j :: 0 <= i < j < |out| && j == i + 1 ==> out[i].end == out[j].start)
  }

  /** Every padding entry is non-empty and is directly followed by a real
      field: gaps exist only to align the field after them. */
  ghost predicate GapsPrecedeFields(out: seq<Field>) {
    && (forall i :: 0 <= i < |out| && out[i].isPadding ==> out[i].size > 0 && i < |out| - 1)
    && (forall i, j :: 0 <= i < j < |out| && j == i + 1 && out[i].isPadding ==> !out[j].isPadding)
  }

  /** Where `pad` puts a field whose offset is `off` when the layout so far
      ends at `pos`: at the offset if that lies beyond `pos` (after a gap),
      otherwise right at `pos`. */
  function Slot(off: int, pos: int): int {
    if off > pos then off else pos
  }

  /** The entries one iteration of the loop in main.go `pad` appends: a gap
      entry covering `pos` up to the offset when the offset lies beyond
      `pos`, then the field moved to its slot. */
  function Chunk(f: Field, off: int, pos: int): seq<Field> {
    (if off > pos then [PaddingEntry(pos, off - pos)] else []) + [Placed(f, Slot(off, pos))]
  }

  /** The loop of main.go `pad`, from running position `pos` on, given the
      precomputed offsets. */
  function PadFrom(fields: seq<Field>, offs: seq<int>, pos: int): (out: seq<Field>)
    requires |offs| == |fields|
    decreases |fields|
  {
    if |fields| == 0 then []
    else
      Chunk(fields[0], offs[0], pos)
      + PadFrom(fields[1..], offs[1..], Slot(offs[0], pos) + fields[0].size)
  }

  /** main.go `pad`. */
  function Pad(fields: seq<Field>): (out: seq<Field>)
    requires AlignsNonZero(fields)
  {
    PadFrom(fields, Offsetsof(fields), 0)
  }

  /** A non-empty `PadFrom` output starts at the running position. */
  lemma PadFromStart(fields: seq<Field>, offs: seq<int>, pos: int)
    requires |offs| == |fields|
    ensures |PadFrom(fields, offs, pos)| >= |fields|
    ensures |PadFrom(fields, offs, pos)| > 0 ==> PadFrom(fields, offs, pos)[0].start == pos
  {
    if |fields| > 0 {
      PadFromStart(fields[1..], offs[1..], Slot(offs[0], pos) + fields[0].size);
    }
  }


  /** Two tiled runs, the second starting where the first ends, tile
      together. */
  lemma TiledAppend(a: seq<Field>, b: seq<Field>)
    requires Tiled(a) && Tiled(b)
    requires |a| > 0 && |b| > 0 ==> Last(a).end == b[0].start
    ensures Tiled(a + b)
  {
    var c := a + b;
    forall i, j | 0 <= i < j < |c| && j == i + 1
      ensures c[i].end == c[j].start
    {
      if j < |a| {
        assert c[i] == a[i] && c[j] == a[j];
      } else if j > |a| {
        assert c[i] == b[i - |a|] && c[j] == b[j - |a|];
      }
    }
  }

  /** Gap placement survives concatenation. */
  lemma GapsAppend(a: seq<Field>, b: seq<Field>)
    requires GapsPrecedeFields(a) && GapsPrecedeFields(b)
    ensures GapsPrecedeFields(a + b)
  {
    var c := a + b;
    forall i | 0 <= i < |c| && c[i].isPadding
      ensures c[i].size > 0 && i < |c| - 1
    {
      if i >= |a| {
        assert c[i] == b[i - |a|];
      }
    }
    forall i, j | 0 <= i < j < |c| && j == i + 1 && c[i].isPadding
      ensures !c[j].isPadding
    {
      if j < |a| {
        assert c[i] == a[i] && c[j] == a[j];
      } else if j > |a| {
        assert c[i] == b[i - |a|] && c[j] == b[j - |a|];
      }
    }
  }

  /** One iteration's entries tile from `pos` to the end of the field. */
  lemma ChunkTiles(f: Field, off: int, pos: int)
    ensures Tiled(Chunk(f, off, pos))
    ensures Chunk(f, off, pos)[0].start == pos
    ensures Last(Chunk(f, off, pos)) == Placed(f, Slot(off, pos))
  {
  }

  /** For a real field, one iteration's gap (if any) is non-empty and comes
      right before the field, and the field is its only real entry. */
  lemma ChunkOfField(f: Field, off: int, pos: int)
    requires !f.isPadding
    ensures GapsPrecedeFields(Chunk(f, off, pos))
    ensures Real(Chunk(f, off, pos)) == [Placed(f, Slot(off, pos))]
  {
    var c := Chunk(f, off, pos);
    RealSingleton(Placed(f, Slot(off, pos)));
    if off > pos {
      RealSingleton(c[0]);
      RealAppend([c[0]], [c[1]]);
      assert c == [c[0]] + [c[1]];
    }
  }

  /** The output of `pad` tiles the address range without holes or
      overlaps: every entry spans exactly its size and ends where the next
      one starts. A gap entry is never empty and is always followed by the
      field it makes room for, so there is no trailing padding. */
  lemma {:induction false} PadFromTiles(fields: seq<Field>, offs: seq<int>, pos: int)
    requires |offs| == |fields|
    ensures Tiled(PadFrom(fields, offs, pos))
    ensures NoPadding(fields) ==> GapsPrecedeFields(PadFrom(fields, offs, pos))
    decreases |fields|
  {
    if |fields| > 0 {
      var f := fields[0];
      var head := Chunk(f, offs[0], pos);
      var next := Slot(offs[0], pos) + f.size;
      var rest := PadFrom(fields[1..], offs[1..], next);
      PadFromTiles(fields[1..], offs[1..], next);
      PadFromStart(fields[1..], offs[1..], next);
      ChunkTiles(f, offs[0], pos);
      TiledAppend(head, rest);
      if NoPadding(fields) {
        TailNoPadding(fields);
        ChunkOfField(f, offs[0], pos);
        GapsAppend(head, rest);
      }
    }
  }

  /** What `pad` promises about its whole output: it starts at offset 0,
      tiles the address range, and inserts gaps only in front of fields. */
  lemma PadTiles(fields: seq<Field>)
    requires AlignsNonZero(fields)
    ensures |Pad(fields)| > 0 ==> Pad(fields)[0].start == 0
    ensures Tiled(Pad(fields))
    ensures NoPadding(fields) ==> GapsPrecedeFields(Pad(fields))
  {
    PadFromStart(fields, Offsetsof(fields), 0);
    PadFromTiles(fields, Offsetsof(fields), 0);
  }

  /** Offsets that never reach back into the field before them: the first
      is not before `pos`, and each later one is not before the end of the
      previous field. */
  ghost predicate Spaced(fields: seq<Field>, offs: seq<int>, pos: int)
    requires |offs| == |fields|
  {
    && (|fields| > 0 ==> pos <= offs[0])
    && (forall i, j :: 0 <= i < j < |fields| && j == i + 1 ==> offs[i] + fields[i].size <= offs[j])
  }

  lemma SpacedTail(fields: seq<Field>, offs: seq<int>, pos: int)
    requires |offs| == |fields| > 0 && Spaced(fields, offs, pos)
    ensures Spaced(fields[1..], offs[1..], offs[0] + fields[0].size)
  {
    var f, o := fields[1..], offs[1..];
    forall i, j | 0 <= i < j < |f| && j == i + 1
      ensures o[i] + f[i].size <= o[j]
    {
      assert o[i] == offs[i + 1] && o[j] == offs[j + 1] && f[i] == fields[i + 1];
    }
  }

  /** With positive alignments the offsets never go back: the first is not
      before the starting position, and each one is at least the previous
      offset plus the previous size, so fields never overlap. */
  lemma OffsetsSpaced(fields: seq<Field>, o: int)
    requires AlignsPositive(fields)
    ensures AlignsNonZero(fields)
    ensures Spaced(fields, OffsetsFrom(fields, o), o)
  {
    assert AlignsNonZero(fields);
    var offs := OffsetsFrom(fields, o);
    OffsetsRecurrence(fields, o);
    if |fields| > 0 {
      AlignUpNotBelow(o, fields[0].align);
    }
    forall i, j | 0 <= i < j < |fields| && j == i + 1
      ensures offs[i] + fields[i].size <= offs[j]
    {
      AlignUpNotBelow(offs[i] + fields[i].size, fields[j].align);
    }
  }

  lemma OffsetsNeverOverlap(fields: seq<Field>)
    requires AlignsPositive(fields)
    ensures AlignsNonZero(fields)
    ensures forall i, j :: 0 <= i < j < |fields| && j == i + 1 ==>
              Offsetsof(fields)[i] + fields[i].size <= Offsetsof(fields)[j]
  {
    OffsetsSpaced(fields, 0);
  }


  /** With positive alignments and non-negative sizes the first offset is 0,
      no offset is negative, and each rounding lands on the smallest multiple
      of the field's alignment at or after the end of the previous field, so
      it skips less than one alignment step. */
  lemma {:induction false} OffsetsAreTight(fields: seq<Field>)
    requires AlignsPositive(fields) && SizesNonNegative(fields)
    ensures AlignsNonZero(fields)
    ensures |fields| > 0 ==> Offsetsof(fields)[0] == 0
    ensures forall i :: 0 <= i < |fields| ==> 0 <= Offsetsof(fields)[i]
    ensures forall i, j :: 0 <= i < j < |fields| && j == i + 1 ==>
              Offsetsof(fields)[j] < Offsetsof(fields)[i] + fields[i].size + fields[j].align
    ensures forall i, j, z ::
              (0 <= i < j < |fields| && j == i + 1 && MultipleOf(z, fields[j].align)
               && Offsetsof(fields)[i] + fields[i].size <= z) ==> Offsetsof(fields)[j] <= z
  {
    assert AlignsNonZero(fields);
    var offs := Offsetsof(fields);
    OffsetsRecurrence(fields, 0);
    if |fields| > 0 {
      AlignUpFixesMultiples(0, fields[0].align);
    }
    NonNegativeOffsets(fields, offs);
    forall i, j | 0 <= i < j < |fields| && j == i + 1
      ensures offs[j] < offs[i] + fields[i].size + fields[j].align
      ensures forall z ::
                (MultipleOf(z, fields[j].align) && offs[i] + fields[i].size <= z) ==> offs[j] <= z
    {
      AlignUpSound(offs[i] + fields[i].size, fields[j].align);
      AlignUpIsLeast(offs[i] + fields[i].size, fields[j].align);
    }
  }

  lemma {:induction false} NonNegativeOffsets(fields: seq<Field>, offs: seq<int>)
    requires AlignsPositive(fields) && SizesNonNegative(fields)
    requires offs == Offsetsof(fields)
    ensures forall i :: 0 <= i < |fields| ==> 0 <= offs[i]
  {
    forall i | 0 <= i < |fields|
      ensures 0 <= offs[i]
    {
      NonNegativeOffset(fields, offs, i);
    }
  }

  lemma {:induction false} NonNegativeOffset(fields: seq<Field>, offs: seq<int>, i: nat)
    requires AlignsPositive(fields) && SizesNonNegative(fields)
    requires offs == Offsetsof(fields) && i < |fields|
    ensures 0 <= offs[i]
  {
    OffsetsRecurrence(fields, 0);
    if i > 0 {
      NonNegativeOffset(fields, offs, i - 1);
      AlignUpSound(offs[i - 1] + fields[i - 1].size, fields[i].align);
    } else {
      AlignUpSound(0, fields[0].align);
    }
  }

  /** `PadFrom` peeled once: when the first field is real, the real
      entries are that field, moved to its slot, followed by the real
      entries of the rest. */
  lemma PadFromHead(fields: seq<Field>, offs: seq<int>, pos: int)
    requires |offs| == |fields| > 0 && !fields[0].isPadding
    ensures Real(PadFrom(fields, offs, pos))
            == [Placed(fields[0], Slot(offs[0], pos))]
               + Real(PadFrom(fields[1..], offs[1..], Slot(offs[0], pos) + fields[0].size))
  {
    ChunkOfField(fields[0], offs[0], pos);
    RealAppend(Chunk(fields[0], offs[0], pos),
               PadFrom(fields[1..], offs[1..], Slot(offs[0], pos) + fields[0].size));
  }

  /** `pad` keeps one real entry per input field. */
  lemma {:induction false} PadRealLength(fields: seq<Field>, offs: seq<int>, pos: int)
    requires |offs| == |fields| && NoPadding(fields)
    ensures |Real(PadFrom(fields, offs, pos))| == |fields|
    decreases |fields|
  {
    if |fields| > 0 {
      TailNoPadding(fields);
      PadFromHead(fields, offs, pos);
      PadRealLength(fields[1..], offs[1..], Slot(offs[0], pos) + fields[0].size);
    }
  }

  /** The `i`-th real entry `pad` emits is field `i`, moved but otherwise
      unchanged, whatever offsets it was handed. */
  lemma {:induction false} PadMovesAt(fields: seq<Field>, offs: seq<int>, pos: int, i: nat)
    requires |offs| == |fields| && NoPadding(fields) && i < |fields|
    ensures |Real(PadFrom(fields, offs, pos))| == |fields|
    ensures Unplaced(Real(PadFrom(fields, offs, pos))[i]) == Unplaced(fields[i])
    decreases i
  {
    PadRealLength(fields, offs, pos);
    TailNoPadding(fields);
    PadFromHead(fields, offs, pos);
    if i > 0 {
      PadMovesAt(fields[1..], offs[1..], Slot(offs[0], pos) + fields[0].size, i - 1);
      assert fields[1..][i - 1] == fields[i];
    }
  }

  /** `pad` only moves fields: erasing offsets, its real entries are its
      input, whatever offsets it was handed. */
  lemma PadKeepsFields(fields: seq<Field>, offs: seq<int>, pos: int)
    requires |offs| == |fields| && NoPadding(fields)
    ensures UnplacedAll(Real(PadFrom(fields, offs, pos))) == UnplacedAll(fields)
  {
    var r := Real(PadFrom(fields, offs, pos));
    PadRealLength(fields, offs, pos);
    UnplacedAllAt(r);
    UnplacedAllAt(fields);
    forall i | 0 <= i < |fields|
      ensures UnplacedAll(r)[i] == UnplacedAll(fields)[i]
    {
      PadMovesAt(fields, offs, pos, i);
    }
  }

  /** Field `i` comes out of `pad` as the `i`-th real entry, moved to its
      offset, whenever the offsets leave room for every field. */
  lemma {:induction false} PadPlacesAt(fields: seq<Field>, offs: seq<int>, pos: int, i: nat)
    requires |offs| == |fields| && NoPadding(fields) && i < |fields|
    requires Spaced(fields, offs, pos)
    ensures |Real(PadFrom(fields, offs, pos))| == |fields|
    ensures Real(PadFrom(fields, offs, pos))[i] == Placed(fields[i], offs[i])
    decreases i
  {
    PadRealLength(fields, offs, pos);
    TailNoPadding(fields);
    PadFromHead(fields, offs, pos);
    if i > 0 {
      SpacedTail(fields, offs, pos);
      PadPlacesAt(fields[1..], offs[1..], offs[0] + fields[0].size, i - 1);
      assert fields[1..][i - 1] == fields[i];
    }
  }

  /** The fields come out of `pad` in their input order, each moved to the
      offset `offsetsof` chose for it and otherwise unchanged. */
  lemma PadPlacesAtOffsets(fields: seq<Field>, pos: int)
    requires AlignsPositive(fields) && NoPadding(fields)
    ensures AlignsNonZero(fields)
    ensures |Real(PadFrom(fields, OffsetsFrom(fields, pos), pos))| == |fields|
    ensures forall i :: 0 <= i < |fields| ==>
              Real(PadFrom(fields, OffsetsFrom(fields, pos), pos))[i]
              == Placed(fields[i], OffsetsFrom(fields, pos)[i])
  {
    OffsetsSpaced(fields, pos);
    PadRealLength(fields, OffsetsFrom(fields, pos), pos);
    forall i | 0 <= i < |fields|
      ensures Real(PadFrom(fields, OffsetsFrom(fields, pos), pos))[i]
              == Placed(fields[i], OffsetsFrom(fields, pos)[i])
    {
      PadPlacesAt(fields, OffsetsFrom(fields, pos), pos, i);
    }
  }

  /** The layout `pad` builds ends right after the last field: the last
      entry is never padding, so it is the last field at its offset. */
  lemma PadEndsAfterLastField(fields: seq<Field>, pos: int)
    requires AlignsPositive(fields) && NoPadding(fields) && |fields| > 0
    ensures AlignsNonZero(fields)
    ensures Last(PadFrom(fields, OffsetsFrom(fields, pos), pos)).end
            == Last(OffsetsFrom(fields, pos)) + Last(fields).size
  {
    assert AlignsNonZero(fields);
    var offs := OffsetsFrom(fields, pos);
    var out := PadFrom(fields, offs, pos);
    PadFromStart(fields, offs, pos);
    PadFromTiles(fields, offs, pos);
    assert !Last(out).isPadding;
    LastReal(out);
    OffsetsSpaced(fields, pos);
    PadPlacesAt(fields, offs, pos, |fields| - 1);
  }

  /** The offsets `offsetsof` computes depend only on sizes and alignments. */
  lemma {:induction false} OffsetsIgnoreOffsets(s: seq<Field>, t: seq<Field>, o: int)
    requires AlignsNonZero(s) && UnplacedAll(s) == UnplacedAll(t)
    ensures AlignsNonZero(t) && OffsetsFrom(s, o) == OffsetsFrom(t, o)
    decreases |s|
  {
    UnplacedAllAt(s);
    UnplacedAllAt(t);
    forall i | 0 <= i < |t| ensures t[i].align != 0 {
      assert Unplaced(s[i]) == Unplaced(t[i]);
    }
    if |s| > 0 {
      TailNonZero(s);
      UnplacedAllHead(s, t);
      OffsetsIgnoreOffsets(s[1..], t[1..], AlignUp(o, s[0].align) + s[0].size);
    }
  }

  lemma {:induction false} PadFromIgnoresOffsets(s: seq<Field>, t: seq<Field>, offs: seq<int>, pos: int)
    requires |offs| == |s| && UnplacedAll(s) == UnplacedAll(t)
    ensures PadFrom(s, offs, pos) == PadFrom(t, offs, pos)
    decreases |s|
  {
    if |s| > 0 {
      UnplacedAllHead(s, t);
      var at := Slot(offs[0], pos);
      assert Placed(s[0], at) == Placed(t[0], at);
      assert Chunk(s[0], offs[0], pos) == Chunk(t[0], offs[0], pos);
      PadFromIgnoresOffsets(s[1..], t[1..], offs[1..], at + s[0].size);
    }
  }

  /** `pad` ignores the offsets its input carries. */
  lemma PadIgnoresOffsets(s: seq<Field>, t: seq<Field>)
    requires AlignsNonZero(s) && UnplacedAll(s) == UnplacedAll(t)
    ensures AlignsNonZero(t) && Pad(s) == Pad(t)
  {
    OffsetsIgnoreOffsets(s, t, 0);
    PadFromIgnoresOffsets(s, t, Offsetsof(s), 0);
  }

  /** Padding an already padded layout again, after dropping its padding
      entries, gives the same layout back. */
  lemma PadIdempotent(fields: seq<Field>)
    requires AlignsNonZero(fields) && NoPadding(fields)
    ensures AlignsNonZero(Real(Pad(fields)))
    ensures Pad(Real(Pad(fields))) == Pad(fields)
  {
    PadKeepsFields(fields, Offsetsof(fields), 0);
    PadIgnoresOffsets(fields, Real(Pad(fields)));
  }

  /** What `pad` promises the rest of the program, with positive alignments:
      the real entries are the input fields in order, each at its
      `offsetsof` offset, so each starts on a multiple of its alignment; the
      layout ends right after the last field. */
  lemma PadLayout(fields: seq<Field>)
    requires AlignsPositive(fields) && NoPadding(fields)
    ensures AlignsNonZero(fields)
    ensures |Real(Pad(fields))| == |fields|
    ensures forall i :: 0 <= i < |fields| ==>
              Real(Pad(fields))[i] == Placed(fields[i], Offsetsof(fields)[i])
    ensures forall f :: f in Real(Pad(fields)) ==> f.align != 0 && MultipleOf(f.start, f.align)
    ensures |fields| > 0 ==> Last(Pad(fields)).end == Last(Offsetsof(fields)) + Last(fields).size
  {
    PadPlacesAtOffsets(fields, 0);
    if |fields| > 0 {
      PadEndsAfterLastField(fields, 0);
    }
    OffsetsAreAligned(fields, 0);
    var r := Real(Pad(fields));
    forall f | f in r ensures f.align != 0 && MultipleOf(f.start, f.align) {
      var i :| 0 <= i < |r| && r[i] == f;
    }
  }

  /** Total size of a run of fields laid end to end. */
  function SumSizes(s: seq<Field>): int {
    if |s| == 0 then 0 else s[0].size + SumSizes(s[1..])
  }

  /** Fields of one alignment `a` whose sizes are multiples of `a`. */
  predicate Uniform(fields: seq<Field>, a: int)
    requires a != 0
  {
    forall i :: 0 <= i < |fields| ==>
      fields[i].align == a && fields[i].size >= 0 && MultipleOf(fields[i].size, a)
  }

  /** With uniform fields and an aligned start, the first field goes exactly
      at the start, with no gap before it, and the rest starts aligned. */
  lemma UniformPeel(fields: seq<Field>, a: int, o: int)
    requires a > 0 && o >= 0 && MultipleOf(o, a) && Uniform(fields, a) && |fields| > 0
    ensures AlignsNonZero(fields) && AlignsNonZero(fields[1..])
    ensures Uniform(fields[1..], a)
    ensures o + fields[0].size >= 0 && MultipleOf(o + fields[0].size, a)
    ensures PadFrom(fields, OffsetsFrom(fields, o), o)
            == [Placed(fields[0], o)]
               + PadFrom(fields[1..], OffsetsFrom(fields[1..], o + fields[0].size), o + fields[0].size)
  {
    assert AlignsNonZero(fields);
    TailNonZero(fields);
    assert forall i :: 0 <= i < |fields| - 1 ==> fields[1..][i] == fields[i + 1];
    AlignUpFixesMultiples(o, a);
    MultipleOfSum(o, fields[0].size, a);
    var offs := OffsetsFrom(fields, o);
    assert offs[1..] == OffsetsFrom(fields[1..], o + fields[0].size);
    assert Chunk(fields[0], offs[0], o) == [Placed(fields[0], o)];
  }

  lemma {:induction false} UniformLength(fields: seq<Field>, a: int, o: int)
    requires a > 0 && o >= 0 && MultipleOf(o, a) && Uniform(fields, a)
    ensures AlignsNonZero(fields)
    ensures |PadFrom(fields, OffsetsFrom(fields, o), o)| == |fields|
    decreases |fields|
  {
    assert AlignsNonZero(fields);
    if |fields| > 0 {
      UniformPeel(fields, a, o);
      UniformLength(fields[1..], a, o + fields[0].size);
    }
  }

  lemma {:induction false} UniformAt(fields: seq<Field>, a: int, o: int, i: nat)
    requires a > 0 && o >= 0 && MultipleOf(o, a) && Uniform(fields, a) && i < |fields|
    ensures AlignsNonZero(fields)
    ensures |PadFrom(fields, OffsetsFrom(fields, o), o)| == |fields|
    ensures PadFrom(fields, OffsetsFrom(fields, o), o)[i] == Placed(fields[i], o + SumSizes(fields[..i]))
    decreases i
  {
    UniformLength(fields, a, o);
    UniformPeel(fields, a, o);
    if i > 0 {
      var f := fields[0];
      UniformAt(fields[1..], a, o + f.size, i - 1);
      assert fields[..i][1..] == fields[1..][..i - 1];
      assert fields[1..][i - 1] == fields[i];
    }
  }

  /** When every field has the same alignment and a size that is a multiple
      of it, `pad` inserts no padding and each field starts where the
      previous ones end. */
  lemma UniformLayoutHasNoGaps(fields: seq<Field>, a: int)
    requires a > 0 && Uniform(fields, a)
    ensures AlignsNonZero(fields)
    ensures |Pad(fields)| == |fields|
    ensures forall i :: 0 <= i < |fields| ==> Pad(fields)[i] == Placed(fields[i], SumSizes(fields[..i]))
  {
    UniformLength(fields, a, 0);
    forall i | 0 <= i < |fields|
      ensures Pad(fields)[i] == Placed(fields[i], SumSizes(fields[..i]))
    {
      UniformAt(fields, a, 0, i);
    }
  }

}
