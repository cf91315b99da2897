/** The field order structlayout-optimize proposes (main.go
    `byAlignAndSize` and `optimize`): zero-sized fields first, then by
    decreasing alignment, then by decreasing size. */
module Ordering {
  import opened Fields

  /** main.go `byAlignAndSize.Less`: does `a` belong strictly before `b`? */
  predicate Less(a: Field, b: Field) {
    if a.size == 0 && b.size != 0 then true
    else if b.size == 0 && a.size != 0 then false
    else if a.align != b.align then a.align > b.align
    else if a.size != b.size then a.size > b.size
    else false
  }

  /** The sort key the comparison encodes: a zero-size flag (0 first), then
      the alignment and the size, both negated so that larger comes first. */
  datatype Key = Key(nonEmpty: int, negAlign: int, negSize: int)

  function KeyOf(f: Field): Key {
    Key(if f.size == 0 then 0 else 1, -f.align, -f.size)
  }

  /** Strict lexicographic order on keys. */
  predicate KeyBefore(x: Key, y: Key) {
    || x.nonEmpty < y.nonEmpty
    || (x.nonEmpty == y.nonEmpty && x.negAlign < y.negAlign)
    || (x.nonEmpty == y.nonEmpty && x.negAlign == y.negAlign && x.negSize < y.negSize)
  }

  /** `Less` is exactly the lexicographic order on the key above. */
  lemma LessIsKeyOrder(a: Field, b: Field)
    ensures Less(a, b) <==> KeyBefore(KeyOf(a), KeyOf(b))
  {
  }

  /** Two fields are tied (neither goes first) exactly when they have the
      same alignment and the same size. */
  lemma TiedIff(a: Field, b: Field)
    ensures !Less(a, b) && !Less(b, a) <==> a.align == b.align && a.size == b.size
  {
  }

  /** `Less` is a strict weak order, which is what Go's `sort.Sort`
      requires of it: irreflexive, transitive, and with ties transitive
      (equivalently, "not before" is transitive). */
  lemma LessIsStrictWeakOrder()
    ensures forall a :: !Less(a, a)
    ensures forall a, b, c :: Less(a, b) && Less(b, c) ==> Less(a, c)
    ensures forall a, b, c :: !Less(b, a) && !Less(c, b) ==> !Less(c, a)
  {
    forall a, b, c | Less(a, b) && Less(b, c)
      ensures Less(a, c)
    {
      LessIsKeyOrder(a, b);
      LessIsKeyOrder(b, c);
      LessIsKeyOrder(a, c);
    }
    forall a, b, c | !Less(b, a) && !Less(c, b)
      ensures !Less(c, a)
    {
      LessIsKeyOrder(b, a);
      LessIsKeyOrder(c, b);
      LessIsKeyOrder(c, a);
    }
  }

  /** No field goes before a later one in `s`. */
  predicate Sorted(s: seq<Field>) {
    forall i, j :: 0 <= i < j < |s| ==> !Less(s[j], s[i])
  }

  /** Order depends only on sizes and alignments, so moving fields to new
      offsets keeps a sorted list sorted. */
  lemma SortedIgnoresOffsets(s: seq<Field>, t: seq<Field>)
    requires Sorted(s) && UnplacedAll(s) == UnplacedAll(t)
    ensures Sorted(t)
  {
    UnplacedAllAt(s);
    UnplacedAllAt(t);
    forall i, j | 0 <= i < j < |t|
      ensures !Less(t[j], t[i])
    {
      assert Unplaced(s[i]) == Unplaced(t[i]) && Unplaced(s[j]) == Unplaced(t[j]);
    }
  }

  /** Neighbours in order suffice: a list whose every adjacent pair is in
      order is sorted. */
  lemma {:induction false} AdjacentSorted(s: seq<Field>)
    requires forall i, j :: 0 <= i < j < |s| && j == i + 1 ==> !Less(s[j], s[i])
    ensures Sorted(s)
  {
    LessIsStrictWeakOrder();
    forall i, j | 0 <= i < j < |s|
      ensures !Less(s[j], s[i])
    {
      AdjacentChain(s, i, j);
    }
  }

  lemma {:induction false} AdjacentChain(s: seq<Field>, i: nat, j: nat)
    requires forall i, j :: 0 <= i < j < |s| && j == i + 1 ==> !Less(s[j], s[i])
    requires i < j < |s|
    ensures !Less(s[j], s[i])
    decreases j - i
  {
    LessIsStrictWeakOrder();
    if j > i + 1 {
      AdjacentChain(s, i, j - 1);
      assert !Less(s[j], s[j - 1]);
    }
  }

  /** The first `n` entries of `s` are in order. */
  predicate SortedPrefix(s: seq<Field>, n: nat)
    requires n <= |s|
  {
    forall a, b :: 0 <= a < b < n ==> !Less(s[b], s[a])
  }

  /** The state of an insertion pass that has moved the entry it inserts
      down to `j`: the entries up to `i` other than position `j` are in
      order, and the entry at `j` goes strictly before every entry above it. */
  predicate Inserting(s: seq<Field>, i: nat, j: nat)
    requires j <= i < |s|
  {
    && (forall a, b :: 0 <= a < b <= i && a != j && b != j ==> !Less(s[b], s[a]))
    && (forall b :: j < b <= i ==> Less(s[j], s[b]))
  }

  /** An insertion pass is done once the entry cannot move further down. */
  lemma Settled(s: seq<Field>, i: nat, j: nat)
    requires j <= i < |s| && Inserting(s, i, j)
    requires j == 0 || !Less(s[j], s[j - 1])
    ensures SortedPrefix(s, i + 1)
  {
    LessIsStrictWeakOrder();
    forall a, b | 0 <= a < b <= i
      ensures !Less(s[b], s[a])
    {
      if b == j && a < j - 1 {
        assert !Less(s[j - 1], s[a]);
      }
    }
  }

  /** Swapping the inserted entry with the one below it when it goes
      strictly before that one keeps the pass's state. */
  lemma SwapDown(s: seq<Field>, i: nat, j: nat)
    requires 0 < j <= i < |s| && Inserting(s, i, j) && Less(s[j], s[j - 1])
    ensures Inserting(s[j - 1 := s[j]][j := s[j - 1]], i, j - 1)
  {
  }

  /** One pass of the insertion sort: moves entry `i` down past every
      entry it goes strictly before, by swaps. */
  method Insert(s: seq<Field>, i: nat) returns (r: seq<Field>)
    requires i < |s| && SortedPrefix(s, i)
    ensures |r| == |s| && multiset(r) == multiset(s)
    ensures SortedPrefix(r, i + 1)
    ensures r[i + 1..] == s[i + 1..]
  {
    r := s;
    var j := i;
    while j > 0 && Less(r[j], r[j - 1])
      invariant 0 <= j <= i < |r| == |s|
      invariant multiset(r) == multiset(s)
      invariant Inserting(r, i, j)
      invariant r[i + 1..] == s[i + 1..]
    {
      SwapDown(r, i, j);
      r := r[j - 1 := r[j]][j := r[j - 1]];
      j := j - 1;
    }
    Settled(r, i, j);
  }

  /** main.go `optimize`: sorts the fields by `Less`. Go's `sort.Sort` is
      modelled by an insertion sort that, like it, only swaps entries; the
      result is a permutation of the input in which no field goes before an
      earlier one. */
  method Optimize(fields: seq<Field>) returns (r: seq<Field>)
    ensures multiset(r) == multiset(fields)
    ensures Sorted(r)
  {
    r := fields;
    var i := 0;
    while i < |r|
      invariant 0 <= i <= |r| == |fields|
      invariant multiset(r) == multiset(fields)
      invariant SortedPrefix(r, i)
    {
      r := Insert(r, i);
      i := i + 1;
    }
  }
}
