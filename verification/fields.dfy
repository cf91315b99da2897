/** The layout record shared by every stage of structlayout-optimize, and the
    small sequence helpers the stages are stated with. */
module Fields {

  /** One entry of a struct layout (main.go `Field`): a real field, or a
      synthetic gap filler when `isPadding` holds. Offsets and sizes are in
      bytes; the source's int64 width is not modelled. */
  datatype Field = Field(
    name: string,
    typeName: string,
    start: int,
    end: int,
    size: int,
    align: int,
    isPadding: bool)

  /** Go's zero value `Field{}`. */
  const ZeroField := Field("", "", 0, 0, 0, 0, false)

  /** The gap filler `pad` emits: no name, no type, alignment 0. */
  function PaddingEntry(start: int, size: int): (p: Field)
    ensures p.isPadding && p.start == start && p.size == size
    ensures p.end - p.start == p.size
  {
    Field("", "", start, start + size, size, 0, true)
  }

  /** The same record moved to offset `at`, keeping its size. */
  function Placed(f: Field, at: int): (g: Field)
    ensures g.start == at && g.end - g.start == f.size
  {
    f.(start := at, end := at + f.size)
  }

  /** The record with its offsets erased: what a stage that only moves a
      field must keep. */
  function Unplaced(f: Field): Field {
    f.(start := 0, end := 0)
  }

  function UnplacedAll(s: seq<Field>): (r: seq<Field>)
    ensures |r| == |s|
  {
    if |s| == 0 then [] else [Unplaced(s[0])] + UnplacedAll(s[1..])
  }

  /** Erasing offsets works entry by entry. */
  lemma {:induction false} UnplacedAllAt(s: seq<Field>)
    ensures forall i :: 0 <= i < |s| ==> UnplacedAll(s)[i] == Unplaced(s[i])
  {
    if |s| > 0 {
      UnplacedAllAt(s[1..]);
      assert forall i :: 0 < i < |s| ==> s[1..][i - 1] == s[i];
    }
  }

  /** The non-padding entries of `s`, in order (the filter loop in main). */
  function Real(s: seq<Field>): (r: seq<Field>)
    ensures |r| <= |s|
  {
    if |s| == 0 then []
    else if s[0].isPadding then Real(s[1..])
    else [s[0]] + Real(s[1..])
  }

  /** `Real` keeps exactly the non-padding entries. */
  lemma {:induction false} RealMembers(s: seq<Field>)
    ensures NoPadding(Real(s))
    ensures forall f :: f in Real(s) <==> f in s && !f.isPadding
  {
    if |s| > 0 {
      RealMembers(s[1..]);
      assert s == [s[0]] + s[1..];
    }
  }

  predicate NoPadding(s: seq<Field>) {
    forall i :: 0 <= i < |s| ==> !s[i].isPadding
  }

  predicate AlignsNonZero(s: seq<Field>) {
    forall i :: 0 <= i < |s| ==> s[i].align != 0
  }

  predicate AlignsPositive(s: seq<Field>) {
    forall i :: 0 <= i < |s| ==> s[i].align > 0
  }

  predicate SizesNonNegative(s: seq<Field>) {
    forall i :: 0 <= i < |s| ==> s[i].size >= 0
  }

  lemma TailNonZero(s: seq<Field>)
    requires |s| > 0 && AlignsNonZero(s)
    ensures AlignsNonZero(s[1..])
  {
    assert forall i :: 0 <= i < |s| - 1 ==> s[1..][i] == s[i + 1];
  }

  lemma TailPositive(s: seq<Field>)
    requires |s| > 0 && AlignsPositive(s)
    ensures AlignsPositive(s[1..])
  {
    assert forall i :: 0 <= i < |s| - 1 ==> s[1..][i] == s[i + 1];
  }

  lemma TailNoPadding(s: seq<Field>)
    requires |s| > 0 && NoPadding(s)
    ensures !s[0].isPadding && NoPadding(s[1..])
  {
    assert forall i :: 0 <= i < |s| - 1 ==> s[1..][i] == s[i + 1];
  }

  function Last<T>(s: seq<T>): T
    requires |s| > 0
  {
    s[|s| - 1]
  }

  lemma RealSingleton(f: Field)
    ensures Real([f]) == if f.isPadding then [] else [f]
  {
    assert [f][1..] == [];
    assert Real([]) == [];
  }

  /** A list that does not end in padding ends in its last real entry. */
  lemma LastReal(s: seq<Field>)
    requires |s| > 0 && !Last(s).isPadding
    ensures |Real(s)| > 0 && Last(Real(s)) == Last(s)
  {
    var n := |s| - 1;
    assert s == s[..n] + [s[n]];
    RealAppend(s[..n], [s[n]]);
    RealSingleton(s[n]);
  }

  lemma {:induction false} RealAppend(a: seq<Field>, b: seq<Field>)
    ensures Real(a + b) == Real(a) + Real(b)
    decreases |a|
  {
    if |a| == 0 {
      assert a + b == b;
    } else {
      assert (a + b)[1..] == a[1..] + b;
      RealAppend(a[1..], b);
    }
  }

  /** Filtering a list is filtering all but its last entry, then that entry. */
  lemma RealSnoc(s: seq<Field>)
    requires |s| > 0
    ensures Real(s) == Real(s[..|s| - 1]) + Real([s[|s| - 1]])
  {
    var init, f := s[..|s| - 1], s[|s| - 1];
    RealAppend(init, [f]);
    assert init + [f] == s;
  }

  lemma RealOfPaddingFree(s: seq<Field>)
    requires NoPadding(s)
    ensures Real(s) == s
  {
    if |s| > 0 {
      assert s[0] in s;
      RealOfPaddingFree(s[1..]);
    }
  }

  lemma {:induction false} UnplacedAllAppend(a: seq<Field>, b: seq<Field>)
    ensures UnplacedAll(a + b) == UnplacedAll(a) + UnplacedAll(b)
  {
    UnplacedAllAt(a + b);
    UnplacedAllAt(a);
    UnplacedAllAt(b);
    assert |UnplacedAll(a + b)| == |UnplacedAll(a) + UnplacedAll(b)|;
  }

  /** Two lists that agree once offsets are erased agree entry by entry. */
  lemma UnplacedAllHead(s: seq<Field>, t: seq<Field>)
    requires UnplacedAll(s) == UnplacedAll(t) && |s| > 0
    ensures |t| == |s| && Unplaced(s[0]) == Unplaced(t[0])
    ensures UnplacedAll(s[1..]) == UnplacedAll(t[1..])
  {
    assert UnplacedAll(s)[1..] == UnplacedAll(s[1..]);
    assert UnplacedAll(t)[1..] == UnplacedAll(t[1..]);
  }

  lemma UnplacedInsert(left: seq<Field>, x: Field, right: seq<Field>)
    ensures multiset(UnplacedAll(left + [x] + right))
         == multiset{Unplaced(x)} + multiset(UnplacedAll(left + right))
  {
    UnplacedAllAppend(left + [x], right);
    UnplacedAllAppend(left, [x]);
    UnplacedAllAppend(left, right);
  }

  lemma RemoveMatching(a: seq<Field>, b: seq<Field>, k: nat)
    requires multiset(a) == multiset(b) && |a| > 0
    requires k < |b| && b[k] == a[0]
    ensures multiset(a[1..]) == multiset(b[..k] + b[k + 1..])
  {
    assert a == [a[0]] + a[1..];
    assert b == b[..k] + [a[0]] + b[k + 1..];
    assert multiset(a) == multiset{a[0]} + multiset(a[1..]);
    assert multiset(b) == multiset(b[..k]) + multiset{a[0]} + multiset(b[k + 1..]);
    assert multiset(a[1..]) == multiset(a) - multiset{a[0]};
    assert multiset(b[..k]) + multiset(b[k + 1..]) == multiset(b) - multiset{a[0]};
  }

  /** Two sequences that are permutations of each other stay permutations
      once their offsets are erased. */
  lemma {:induction false} UnplacedPermutation(a: seq<Field>, b: seq<Field>)
    requires multiset(a) == multiset(b)
    ensures multiset(UnplacedAll(a)) == multiset(UnplacedAll(b))
    decreases |a|
  {
    if |a| == 0 {
      assert |b| == |multiset(b)| == 0;
    } else {
      assert a[0] in multiset(b);
      var k :| 0 <= k < |b| && b[k] == a[0];
      RemoveMatching(a, b, k);
      UnplacedPermutation(a[1..], b[..k] + b[k + 1..]);
      assert b == b[..k] + [a[0]] + b[k + 1..];
      UnplacedInsert(b[..k], a[0], b[k + 1..]);
      assert UnplacedAll(a) == [Unplaced(a[0])] + UnplacedAll(a[1..]);
    }
  }
}

/** The outcome of a stage that can fail: a value, or the error that stopped it. */
module Outcomes {

  datatype Result<+T, +E> = Success(value: T) | Failure(error: E)
}
