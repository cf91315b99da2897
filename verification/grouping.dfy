/** main.go `combine`: collapsing a flattened, hierarchical field list (names
    such as `T.a.b`) into one entry per run of consecutive fields that share
    the first two components of their names. The loop is modelled twice, as
    written and with its two defects repaired (see `Revision`).
    `Pipeline.Transform` takes the revision as a parameter; `AsWritten` is
    the program's loop. */
module Grouping {
  import opened Fields

  predicate HasDot(name: string) {
    '.' in name
  }

  /** Every real entry has a dotted name. `combine` needs this: it slices
      the first two components of each such name and panics on fewer. */
  predicate NamesHaveDots(s: seq<Field>) {
    forall i :: 0 <= i < |s| && !s[i].isPadding ==> HasDot(s[i].name)
  }

  /** The index of the first '.' at or after `i`, or `|s|` when there is none. */
  function DotFrom(s: string, i: nat): (k: nat)
    ensures k <= |s|
    decreases |s| - i
  {
    if i >= |s| then |s|
    else if s[i] == '.' then i
    else DotFrom(s, i + 1)
  }

  lemma {:induction false} DotFromFinds(s: string, i: nat)
    requires i <= |s|
    ensures i <= DotFrom(s, i)
    ensures forall j :: i <= j < DotFrom(s, i) ==> s[j] != '.'
    ensures DotFrom(s, i) < |s| ==> s[DotFrom(s, i)] == '.'
    decreases |s| - i
  {
    if i < |s| && s[i] != '.' {
      DotFromFinds(s, i + 1);
    }
  }

  /** `strings.Join(strings.Split(name, ".")[:2], ".")`: the name cut just
      before its second '.', or the whole name when it has only one. */
  function Prefix(name: string): string {
    name[..DotFrom(name, DotFrom(name, 0) + 1)]
  }

  /** For a dotted name, the prefix is a leading part of the name holding
      exactly one '.', and it stops at the end of the name or at a '.'. */
  lemma PrefixShape(name: string)
    requires HasDot(name)
    ensures Prefix(name) <= name
    ensures exists k :: (0 <= k < |Prefix(name)| && Prefix(name)[k] == '.' &&
      forall j :: 0 <= j < |Prefix(name)| && j != k ==> Prefix(name)[j] != '.')
    ensures |Prefix(name)| == |name| || name[|Prefix(name)|] == '.'
  {
    var d := DotFrom(name, 0);
    DotFromFinds(name, 0);
    if d == |name| {
      assert false;
    }
    DotFromFinds(name, d + 1);
    var p := Prefix(name);
    assert p[d] == '.';
  }

  /** Cutting a name to two components twice is cutting it once. */
  lemma PrefixIdempotent(name: string)
    requires HasDot(name)
    ensures HasDot(Prefix(name)) && Prefix(Prefix(name)) == Prefix(name)
  {
    PrefixShape(name);
    var p := Prefix(name);
    var k :| 0 <= k < |p| && p[k] == '.' && forall j :: 0 <= j < |p| && j != k ==> p[j] != '.';
    assert p[k] in p;
    DotFromFinds(name, 0);
    DotFromFinds(p, 0);
    assert DotFrom(p, 0) == k;
    DotFromFinds(p, k + 1);
    assert DotFrom(p, k + 1) == |p|;
  }

  /** A maximal run of consecutive real fields with a common prefix: its
      first member and the members after it. */
  datatype Run = Run(first: Field, rest: seq<Field>)

  function Members(r: Run): seq<Field> {
    [r.first] + r.rest
  }

  /** `f` joins the last run when it shares that run's prefix, and starts a
      run of its own otherwise. */
  function AddTo(runs: seq<Run>, f: Field): seq<Run> {
    if |runs| > 0 && Prefix(Last(runs).first.name) == Prefix(f.name)
    then runs[..|runs| - 1] + [Run(Last(runs).first, Last(runs).rest + [f])]
    else runs + [Run(f, [])]
  }

  /** The runs of a padding-free list, in order. */
  function Runs(s: seq<Field>): (g: seq<Run>)
    ensures |g| <= |s|
  {
    if |s| == 0 then [] else AddTo(Runs(s[..|s| - 1]), s[|s| - 1])
  }

  lemma RunsSnoc(s: seq<Field>, f: Field)
    ensures Runs(s + [f]) == AddTo(Runs(s), f)
  {
    assert (s + [f])[..|s|] == s;
  }

  function Flatten(g: seq<Run>): seq<Field> {
    if |g| == 0 then [] else Flatten(g[..|g| - 1]) + Members(Last(g))
  }

  /** Every member of a run has the prefix of its first member. */
  predicate SamePrefix(r: Run) {
    forall i :: 0 <= i < |r.rest| ==> Prefix(r.rest[i].name) == Prefix(r.first.name)
  }

  /** Neighbouring runs differ in prefix. */
  ghost predicate Maximal(g: seq<Run>) {
    forall i, j :: 0 <= i < j < |g| && j == i + 1 ==>
      Prefix(g[i].first.name) != Prefix(g[j].first.name)
  }

  /** `g` cuts `s` into runs: reading the runs' members in order gives back
      `s`, each run keeps one prefix, and neighbouring runs differ in prefix. */
  ghost predicate Partition(g: seq<Run>, s: seq<Field>) {
    && Flatten(g) == s
    && AllSamePrefix(g)
    && Maximal(g)
  }

  lemma FlattenSnoc(g: seq<Run>, r: Run)
    ensures Flatten(g + [r]) == Flatten(g) + Members(r)
  {
    assert (g + [r])[..|g|] == g;
  }

  /** Adding a field appends it to the members read in order. */
  lemma AddToFlatten(g: seq<Run>, f: Field)
    ensures Flatten(AddTo(g, f)) == Flatten(g) + [f]
  {
    if |g| > 0 && Prefix(Last(g).first.name) == Prefix(f.name) {
      var n := |g| - 1;
      var r := Run(g[n].first, g[n].rest + [f]);
      assert AddTo(g, f) == g[..n] + [r];
      assert g == g[..n] + [g[n]];
      FlattenSnoc(g[..n], g[n]);
      FlattenSnoc(g[..n], r);
      assert Members(r) == Members(g[n]) + [f];
    } else {
      FlattenSnoc(g, Run(f, []));
    }
  }

  /** Reading the runs' members in order gives back the input. */
  lemma {:induction false} RunsFlatten(s: seq<Field>)
    ensures Flatten(Runs(s)) == s
  {
    if |s| > 0 {
      var init, f := s[..|s| - 1], s[|s| - 1];
      RunsFlatten(init);
      assert Runs(s) == AddTo(Runs(init), f);
      AddToFlatten(Runs(init), f);
      assert init + [f] == s;
    }
  }

  lemma SamePrefixSnoc(r: Run, f: Field)
    requires SamePrefix(r) && Prefix(f.name) == Prefix(r.first.name)
    ensures SamePrefix(Run(r.first, r.rest + [f]))
  {
    var rest := r.rest + [f];
    assert forall i :: 0 <= i < |r.rest| ==> rest[i] == r.rest[i];
  }

  /** Every run keeps one prefix. */
  ghost predicate AllSamePrefix(g: seq<Run>) {
    forall i :: 0 <= i < |g| ==> SamePrefix(g[i])
  }

  lemma AddToSamePrefix(g: seq<Run>, f: Field)
    requires AllSamePrefix(g)
    ensures AllSamePrefix(AddTo(g, f))
  {
    var h := AddTo(g, f);
    if |g| > 0 && Prefix(Last(g).first.name) == Prefix(f.name) {
      var n := |g| - 1;
      assert h == g[..n] + [Run(g[n].first, g[n].rest + [f])];
      SamePrefixSnoc(g[n], f);
      assert forall i :: 0 <= i < n ==> h[i] == g[i];
    } else {
      assert h == g + [Run(f, [])];
      assert forall i :: 0 <= i < |g| ==> h[i] == g[i];
    }
  }

  /** Every run keeps one prefix. */
  lemma {:induction false} RunsSamePrefix(s: seq<Field>)
    ensures AllSamePrefix(Runs(s))
  {
    if |s| > 0 {
      var init, f := s[..|s| - 1], s[|s| - 1];
      RunsSamePrefix(init);
      assert Runs(s) == AddTo(Runs(init), f);
      AddToSamePrefix(Runs(init), f);
    }
  }

  lemma AddToMaximal(g: seq<Run>, f: Field)
    requires Maximal(g)
    ensures Maximal(AddTo(g, f))
  {
    var h := AddTo(g, f);
    if |g| > 0 && Prefix(Last(g).first.name) == Prefix(f.name) {
      var n := |g| - 1;
      assert h == g[..n] + [Run(g[n].first, g[n].rest + [f])];
      assert |h| == |g|;
      assert forall i :: 0 <= i < |h| ==> h[i].first == g[i].first;
    } else {
      assert h == g + [Run(f, [])];
      assert forall i :: 0 <= i < |g| ==> h[i] == g[i];
    }
  }

  /** Neighbouring runs differ in prefix: every run is as long as it can be. */
  lemma {:induction false} RunsMaximal(s: seq<Field>)
    ensures Maximal(Runs(s))
  {
    if |s| > 0 {
      var init, f := s[..|s| - 1], s[|s| - 1];
      RunsMaximal(init);
      assert Runs(s) == AddTo(Runs(init), f);
      AddToMaximal(Runs(init), f);
    }
  }

  /** `Runs` cuts its input into maximal same-prefix runs. */
  lemma RunsPartition(s: seq<Field>)
    ensures Partition(Runs(s), s)
  {
    RunsFlatten(s);
    RunsSamePrefix(s);
    RunsMaximal(s);
  }

  function Max(a: int, b: int): int {
    if a > b then a else b
  }

  /** The largest alignment among a run's members. */
  function RunAlign(r: Run): int
    decreases |r.rest|
  {
    if |r.rest| == 0 then r.first.align
    else Max(RunAlign(Run(r.first, r.rest[..|r.rest| - 1])), Last(r.rest).align)
  }

  /** `RunAlign` is the maximum: no member's alignment exceeds it, and some
      member has it. */
  lemma {:induction false} RunAlignIsMax(r: Run)
    ensures forall m :: m in Members(r) ==> m.align <= RunAlign(r)
    ensures exists m :: m in Members(r) && m.align == RunAlign(r)
    decreases |r.rest|
  {
    if |r.rest| > 0 {
      var n := |r.rest| - 1;
      var r' := Run(r.first, r.rest[..n]);
      RunAlignIsMax(r');
      assert r.rest == r.rest[..n] + [r.rest[n]];
      assert Members(r) == Members(r') + [r.rest[n]];
      assert RunAlign(r) == Max(RunAlign(r'), r.rest[n].align);
      var m :| m in Members(r') && m.align == RunAlign(r');
      if RunAlign(r) == r.rest[n].align {
        assert r.rest[n] in Members(r);
      } else {
        assert m in Members(r);
      }
    } else {
      assert r.first in Members(r);
    }
  }

  function LastMember(r: Run): Field {
    if |r.rest| == 0 then r.first else Last(r.rest)
  }

  /** The entry a run should collapse into: named by the prefix, typed
      "struct" when it has more than one member, spanning from its first
      member's start to its last member's end, with the largest alignment. */
  function Merged(r: Run): Field {
    Field(
      Prefix(r.first.name),
      if |r.rest| == 0 then r.first.typeName else "struct",
      r.first.start,
      LastMember(r).end,
      LastMember(r).end - r.first.start,
      RunAlign(r),
      false)
  }

  function MergedAll(g: seq<Run>): (out: seq<Field>)
    ensures |out| == |g|
  {
    seq(|g|, i requires 0 <= i < |g| => Merged(g[i]))
  }

  /** What both revisions of the loop agree on for the entry of run `r`:
      its name, its type, its start, and that it is no padding entry. */
  predicate Shaped(g: Field, r: Run) {
    && g.name == Prefix(r.first.name)
    && g.typeName == (if |r.rest| == 0 then r.first.typeName else "struct")
    && g.start == r.first.start
    && !g.isPadding
  }

  /** `AsWritten` is the loop of main.go; `Corrected` repairs two defects:
      the alignment of the field that starts a new run no longer widens the
      group being closed, and a member extends its group to its own end. */
  datatype Revision = AsWritten | Corrected

  /** The loop state: entries emitted so far, the current prefix ("" before
      the first real field), the group being built, and whether the entry
      just seen was padding. */
  datatype Acc = Acc(out: seq<Field>, cur: string, group: Field, wasPad: bool)

  const Initial := Acc([], "", ZeroField, true)

  function Widen(g: Field, a: int): Field {
    if a > g.align then g.(align := a) else g
  }

  function Sized(g: Field): Field {
    g.(size := g.end - g.start)
  }

  /** The group as main.go's loop holds it when it compares prefixes:
      widened by the field's alignment and, unless padding came just
      before, ended at the field's start. */
  function Bumped(acc: Acc, f: Field): Field {
    var widened := Widen(acc.group, f.align);
    if acc.wasPad then widened else widened.(end := f.start, size := f.start - widened.start)
  }

  /** One iteration of the loop for a real field, as main.go writes it. */
  function StepAsWritten(acc: Acc, f: Field): Acc {
    var p := Prefix(f.name);
    if p != acc.cur then
      Acc(if acc.cur != "" then acc.out + [Bumped(acc, f)] else acc.out, p, f.(name := p), false)
    else
      Acc(acc.out, acc.cur, Bumped(acc, f).(typeName := "struct"), false)
  }

  /** One iteration of the repaired loop for a real field. */
  function StepCorrected(acc: Acc, f: Field): Acc {
    var p := Prefix(f.name);
    if p != acc.cur then
      Acc(if acc.cur != "" then acc.out + [Sized(acc.group)] else acc.out, p, f.(name := p), false)
    else
      Acc(acc.out, acc.cur, Widen(acc.group, f.align).(typeName := "struct", end := f.end), false)
  }

  function Step(rev: Revision, acc: Acc, f: Field): Acc {
    if f.isPadding then acc.(wasPad := true)
    else match rev
      case AsWritten => StepAsWritten(acc, f)
      case Corrected => StepCorrected(acc, f)
  }

  /** The loop state after every entry of `fields`, in order. */
  function Scan(rev: Revision, fields: seq<Field>): Acc {
    if |fields| == 0 then Initial
    else Step(rev, Scan(rev, fields[..|fields| - 1]), fields[|fields| - 1])
  }

  lemma ScanSnoc(rev: Revision, s: seq<Field>, f: Field)
    ensures Scan(rev, s + [f]) == Step(rev, Scan(rev, s), f)
  {
    assert (s + [f])[..|s|] == s;
  }

  /** main.go `combine`: the loop, then the last group with its size set
      from its extent. */
  function Combine(rev: Revision, fields: seq<Field>): seq<Field>
    requires NamesHaveDots(fields)
  {
    var acc := Scan(rev, fields);
    acc.out + [Sized(acc.group)]
  }

  /** Entry `g` is right for run `r` under `rev`: the repaired loop yields
      exactly the merged entry, the loop as written at least its shape. */
  predicate Agrees(rev: Revision, g: Field, r: Run) {
    match rev
      case AsWritten => Shaped(g, r)
      case Corrected => g == Merged(r)
  }

  /** One entry per run, each right for its run. */
  ghost predicate Entries(rev: Revision, out: seq<Field>, runs: seq<Run>) {
    |out| == |runs| && forall i :: 0 <= i < |out| ==> Agrees(rev, out[i], runs[i])
  }

  /** The loop state `acc` has consumed fields whose runs are `runs`: one
      entry per finished run, and the group of the run in progress. */
  ghost predicate Tracks(rev: Revision, acc: Acc, runs: seq<Run>) {
    if |runs| == 0 then acc.out == [] && acc.cur == "" && acc.group == ZeroField
    else
      && acc.cur == Prefix(Last(runs).first.name) && acc.cur != ""
      && Entries(rev, acc.out, runs[..|runs| - 1])
      && Agrees(rev, Sized(acc.group), Last(runs))
      && acc.group.align == RunAlign(Last(runs))
  }

  lemma EntriesSnoc(rev: Revision, out: seq<Field>, runs: seq<Run>, e: Field, r: Run)
    requires Entries(rev, out, runs) && Agrees(rev, e, r)
    ensures Entries(rev, out + [e], runs + [r])
  {
    assert forall i :: 0 <= i < |out| ==> (out + [e])[i] == out[i] && (runs + [r])[i] == runs[i];
  }

  lemma MergedShaped(r: Run)
    ensures Shaped(Merged(r), r)
  {
  }

  /** A dotted name has a nonempty prefix, so it never matches the "" the
      loop starts from. */
  lemma PrefixNotEmpty(name: string)
    requires HasDot(name)
    ensures Prefix(name) != ""
  {
    PrefixShape(name);
  }

  /** A field that starts a run is right for that run of one. */
  lemma StartAgrees(rev: Revision, f: Field)
    requires !f.isPadding
    ensures Agrees(rev, Sized(f.(name := Prefix(f.name))), Run(f, []))
  {
  }

  /** The entry the loop emits when a run ends is right for that run. */
  lemma FlushAgrees(rev: Revision, acc: Acc, f: Field, r: Run)
    requires Agrees(rev, Sized(acc.group), r)
    ensures rev == AsWritten ==> Agrees(rev, Bumped(acc, f), r)
    ensures rev == Corrected ==> Agrees(rev, Sized(acc.group), r)
  {
  }

  /** A field that joins a run keeps the group right for the longer run. */
  lemma JoinAgrees(rev: Revision, acc: Acc, f: Field, r: Run)
    requires Agrees(rev, Sized(acc.group), r) && !f.isPadding
    requires Prefix(f.name) == acc.cur
    ensures Agrees(rev, Sized(Step(rev, acc, f).group), Run(r.first, r.rest + [f]))
  {
    var r' := Run(r.first, r.rest + [f]);
    assert r'.rest[..|r'.rest| - 1] == r.rest;
    assert LastMember(r') == f;
  }

  /** A field that joins a run widens the group to the longer run's
      alignment, under either revision. */
  lemma JoinAlign(rev: Revision, acc: Acc, f: Field, r: Run)
    requires acc.group.align == RunAlign(r) && !f.isPadding
    requires Prefix(f.name) == acc.cur
    ensures Step(rev, acc, f).group.align == RunAlign(Run(r.first, r.rest + [f]))
  {
    var r' := Run(r.first, r.rest + [f]);
    assert r'.rest[..|r'.rest| - 1] == r.rest;
  }

  lemma StepTracksJoin(rev: Revision, acc: Acc, runs: seq<Run>, f: Field)
    requires Tracks(rev, acc, runs) && !f.isPadding && HasDot(f.name)
    requires |runs| > 0 && Prefix(f.name) == acc.cur
    ensures Tracks(rev, Step(rev, acc, f), AddTo(runs, f))
  {
    var n := |runs| - 1;
    var r := Run(runs[n].first, runs[n].rest + [f]);
    var g := runs[..n] + [r];
    assert AddTo(runs, f) == g;
    assert g[..n] == runs[..n];
    JoinAgrees(rev, acc, f, runs[n]);
    JoinAlign(rev, acc, f, runs[n]);
  }

  /** The entry the loop emits for the run that `f` ends. */
  function Flushed(rev: Revision, acc: Acc, f: Field): Field {
    match rev
      case AsWritten => Bumped(acc, f)
      case Corrected => Sized(acc.group)
  }

  /** A field with a new prefix flushes the group, if there is one, and
      starts a group of its own. */
  lemma StepStarts(rev: Revision, acc: Acc, f: Field)
    requires !f.isPadding && Prefix(f.name) != acc.cur
    ensures Step(rev, acc, f) == Acc(
      if acc.cur != "" then acc.out + [Flushed(rev, acc, f)] else acc.out,
      Prefix(f.name), f.(name := Prefix(f.name)), false)
  {
  }

  lemma {:induction false} StepTracksStart(rev: Revision, acc: Acc, runs: seq<Run>, f: Field)
    requires Tracks(rev, acc, runs) && !f.isPadding && HasDot(f.name)
    requires |runs| == 0 || Prefix(f.name) != acc.cur
    ensures Tracks(rev, Step(rev, acc, f), AddTo(runs, f))
  {
    PrefixNotEmpty(f.name);
    var g := runs + [Run(f, [])];
    assert AddTo(runs, f) == g;
    assert g[..|runs|] == runs;
    StartAgrees(rev, f);
    StepStarts(rev, acc, f);
    var out := if acc.cur != "" then acc.out + [Flushed(rev, acc, f)] else acc.out;
    if |runs| > 0 {
      var n := |runs| - 1;
      assert runs == runs[..n] + [runs[n]];
      FlushAgrees(rev, acc, f, runs[n]);
      EntriesSnoc(rev, acc.out, runs[..n], Flushed(rev, acc, f), runs[n]);
    }
    assert Entries(rev, out, runs);
  }

  /** One iteration keeps the invariant for the runs with the field added. */
  lemma StepTracks(rev: Revision, acc: Acc, runs: seq<Run>, f: Field)
    requires Tracks(rev, acc, runs) && !f.isPadding && HasDot(f.name)
    ensures Tracks(rev, Step(rev, acc, f), AddTo(runs, f))
  {
    if |runs| > 0 && Prefix(f.name) == acc.cur {
      StepTracksJoin(rev, acc, runs, f);
    } else {
      StepTracksStart(rev, acc, runs, f);
    }
  }

  lemma NamesHaveDotsInit(s: seq<Field>)
    requires |s| > 0 && NamesHaveDots(s)
    ensures NamesHaveDots(s[..|s| - 1])
    ensures !Last(s).isPadding ==> HasDot(Last(s).name)
  {
    assert forall i :: 0 <= i < |s| - 1 ==> s[..|s| - 1][i] == s[i];
  }

  /** The loop invariant: after any prefix of the input, the state tracks
      the runs of that prefix's real fields. */
  lemma {:induction false} ScanTracks(rev: Revision, fields: seq<Field>)
    requires NamesHaveDots(fields)
    ensures Tracks(rev, Scan(rev, fields), Runs(Real(fields)))
  {
    if |fields| > 0 {
      var init, f := fields[..|fields| - 1], fields[|fields| - 1];
      NamesHaveDotsInit(fields);
      ScanTracks(rev, init);
      assert Scan(rev, fields) == Step(rev, Scan(rev, init), f);
      RealSnoc(fields);
      RealSingleton(f);
      if !f.isPadding {
        RunsSnoc(Real(init), f);
        StepTracks(rev, Scan(rev, init), Runs(Real(init)), f);
      } else {
        assert Real(init) + [] == Real(init);
      }
    }
  }

  /** After the loop, the last group closes the last run. */
  lemma CombineEntries(rev: Revision, fields: seq<Field>)
    requires NamesHaveDots(fields) && |Real(fields)| > 0
    ensures Entries(rev, Combine(rev, fields), Runs(Real(fields)))
  {
    ScanTracks(rev, fields);
    var s := Real(fields);
    var runs := Runs(s);
    assert runs == AddTo(Runs(s[..|s| - 1]), s[|s| - 1]);
    var n := |runs| - 1;
    var acc := Scan(rev, fields);
    EntriesSnoc(rev, acc.out, runs[..n], Sized(acc.group), runs[n]);
    assert runs[..n] + [runs[n]] == runs;
  }

  /** Both revisions emit one entry per run of the real fields, in order,
      each named by its run's prefix, typed "struct" exactly when the run
      has several members, starting where the run starts, and never a
      padding entry; the last entry's size is its extent, and its alignment
      is the largest of the last run's (no later field can widen it). */
  lemma CombineRuns(rev: Revision, fields: seq<Field>)
    requires NamesHaveDots(fields) && |Real(fields)| > 0
    ensures |Combine(rev, fields)| == |Runs(Real(fields))|
    ensures forall i :: 0 <= i < |Combine(rev, fields)| ==>
      Shaped(Combine(rev, fields)[i], Runs(Real(fields))[i])
    ensures Last(Combine(rev, fields)).size == Last(Combine(rev, fields)).end - Last(Combine(rev, fields)).start
    ensures Last(Combine(rev, fields)).align == RunAlign(Last(Runs(Real(fields))))
  {
    CombineEntries(rev, fields);
    ScanTracks(rev, fields);
    var runs := Runs(Real(fields));
    var out := Combine(rev, fields);
    forall i | 0 <= i < |out|
      ensures Shaped(out[i], runs[i])
    {
      assert Agrees(rev, out[i], runs[i]);
      if rev == Corrected {
        MergedShaped(runs[i]);
      }
    }
  }

  /** The repaired loop emits exactly the merged entry of every run: its
      alignment is the largest of the run's and its extent runs from the
      first member's start to the last member's end. */
  lemma CombineCorrected(fields: seq<Field>)
    requires NamesHaveDots(fields) && |Real(fields)| > 0
    ensures Combine(Corrected, fields) == MergedAll(Runs(Real(fields)))
  {
    CombineEntries(Corrected, fields);
    var runs := Runs(Real(fields));
    var out := Combine(Corrected, fields);
    forall i | 0 <= i < |out|
      ensures out[i] == MergedAll(runs)[i]
    {
      assert Agrees(Corrected, out[i], runs[i]);
    }
  }

  /** With no real field, both revisions emit the one zero entry they start
      from. */
  lemma CombineNoRealFields(rev: Revision, fields: seq<Field>)
    requires NamesHaveDots(fields) && |Real(fields)| == 0
    ensures Combine(rev, fields) == [ZeroField]
  {
    ScanTracks(rev, fields);
  }

  /** For the loop as written: each emitted entry carries the largest
      alignment of its run widened by the first member of the next run. */
  ghost predicate LeakAligns(out: seq<Field>, runs: seq<Run>) {
    forall i :: 0 <= i < |out| && i + 1 < |runs| ==>
      out[i].align == Max(RunAlign(runs[i]), runs[i + 1].first.align)
  }

  lemma {:induction false} StepLeaksJoin(acc: Acc, runs: seq<Run>, f: Field)
    requires Tracks(AsWritten, acc, runs) && LeakAligns(acc.out, runs)
    requires !f.isPadding && |runs| > 0 && Prefix(f.name) == acc.cur
    ensures LeakAligns(Step(AsWritten, acc, f).out, AddTo(runs, f))
  {
    var n := |runs| - 1;
    var h := runs[..n] + [Run(runs[n].first, runs[n].rest + [f])];
    assert AddTo(runs, f) == h;
    assert Step(AsWritten, acc, f).out == acc.out;
    assert |acc.out| == n;
    forall i | 0 <= i < |acc.out| && i + 1 < |h|
      ensures acc.out[i].align == Max(RunAlign(h[i]), h[i + 1].first.align)
    {
      assert h[i] == runs[i];
      assert h[i + 1].first == runs[i + 1].first;
    }
  }

  /** What the invariant says about a state that has seen a real field. */
  lemma TracksShape(rev: Revision, acc: Acc, runs: seq<Run>)
    requires Tracks(rev, acc, runs) && |runs| > 0
    ensures |acc.out| == |runs| - 1 && acc.cur != ""
    ensures acc.group.align == RunAlign(Last(runs))
  {
  }

  lemma {:induction false} StepLeaksStart(acc: Acc, runs: seq<Run>, f: Field)
    requires LeakAligns(acc.out, runs) && !f.isPadding && Prefix(f.name) != acc.cur
    requires |runs| > 0 && |acc.out| == |runs| - 1 && acc.cur != ""
    requires acc.group.align == RunAlign(Last(runs))
    ensures LeakAligns(Step(AsWritten, acc, f).out, runs + [Run(f, [])])
  {
    StepStarts(AsWritten, acc, f);
    var h := runs + [Run(f, [])];
    var n := |runs| - 1;
    var out := acc.out + [Bumped(acc, f)];
    assert Step(AsWritten, acc, f).out == out;
    forall i | 0 <= i < |out| && i + 1 < |h|
      ensures out[i].align == Max(RunAlign(h[i]), h[i + 1].first.align)
    {
      if i < n {
        assert out[i] == acc.out[i] && h[i] == runs[i] && h[i + 1] == runs[i + 1];
      } else {
        assert h[i] == runs[n] && h[i + 1].first == f;
      }
    }
  }

  /** The alignment fact survives one iteration of the loop as written. */
  lemma StepLeaks(acc: Acc, runs: seq<Run>, f: Field)
    requires Tracks(AsWritten, acc, runs) && LeakAligns(acc.out, runs)
    requires !f.isPadding && HasDot(f.name)
    ensures LeakAligns(Step(AsWritten, acc, f).out, AddTo(runs, f))
  {
    PrefixNotEmpty(f.name);
    if |runs| == 0 {
      StepStarts(AsWritten, acc, f);
      assert Step(AsWritten, acc, f).out == [];
    } else if Prefix(f.name) == acc.cur {
      StepLeaksJoin(acc, runs, f);
    } else {
      TracksShape(AsWritten, acc, runs);
      StepLeaksStart(acc, runs, f);
      assert AddTo(runs, f) == runs + [Run(f, [])];
    }
  }

  lemma {:induction false} ScanLeaks(fields: seq<Field>)
    requires NamesHaveDots(fields)
    ensures LeakAligns(Scan(AsWritten, fields).out, Runs(Real(fields)))
  {
    if |fields| > 0 {
      var init, f := fields[..|fields| - 1], fields[|fields| - 1];
      NamesHaveDotsInit(fields);
      ScanLeaks(init);
      ScanTracks(AsWritten, init);
      assert Scan(AsWritten, fields) == Step(AsWritten, Scan(AsWritten, init), f);
      RealSnoc(fields);
      RealSingleton(f);
      if !f.isPadding {
        RunsSnoc(Real(init), f);
        StepLeaks(Scan(AsWritten, init), Runs(Real(init)), f);
      } else {
        assert Real(init) + [] == Real(init);
      }
    }
  }

  /** As written, every entry but the last takes the largest alignment of
      its own run and of the first member of the next run. */
  lemma CombineLeaksAlign(fields: seq<Field>)
    requires NamesHaveDots(fields) && |Real(fields)| > 0
    ensures |Combine(AsWritten, fields)| == |Runs(Real(fields))|
    ensures forall i :: 0 <= i < |Combine(AsWritten, fields)| - 1 ==>
      Combine(AsWritten, fields)[i].align
      == Max(RunAlign(Runs(Real(fields))[i]), Runs(Real(fields))[i + 1].first.align)
  {
    CombineEntries(AsWritten, fields);
    ScanLeaks(fields);
  }

  /** Every loop iteration only appends to the entries emitted so far. */
  lemma {:induction false} ScanOutGrows(rev: Revision, s: seq<Field>, m: nat)
    requires m <= |s|
    ensures Scan(rev, s[..m]).out <= Scan(rev, s).out
    decreases |s|
  {
    if m < |s| {
      var init := s[..|s| - 1];
      assert init[..m] == s[..m];
      ScanOutGrows(rev, init, m);
      assert Scan(rev, s) == Step(rev, Scan(rev, init), s[|s| - 1]);
    } else {
      assert s[..m] == s;
    }
  }

  /** After a real field, the loop state holds that field's prefix and
      notes that no padding came just before. */
  lemma ScanAfterReal(rev: Revision, s: seq<Field>)
    requires |s| > 0 && !Last(s).isPadding
    ensures Scan(rev, s).cur == Prefix(Last(s).name) && !Scan(rev, s).wasPad
  {
  }

  /** As written, a run followed directly (no padding in between) by a field
      with another prefix ends at that field's start, and its size is its
      extent. */
  lemma DirectEnd(fields: seq<Field>, k: nat)
    requires NamesHaveDots(fields) && 0 < k < |fields|
    requires !fields[k - 1].isPadding && !fields[k].isPadding
    requires Prefix(fields[k].name) != Prefix(fields[k - 1].name)
    ensures 0 < |Runs(Real(fields[..k]))| < |Combine(AsWritten, fields)|
    ensures Combine(AsWritten, fields)[|Runs(Real(fields[..k]))| - 1].end == fields[k].start
    ensures Combine(AsWritten, fields)[|Runs(Real(fields[..k]))| - 1].size
            == fields[k].start - Combine(AsWritten, fields)[|Runs(Real(fields[..k]))| - 1].start
  {
    var pre, f := fields[..k], fields[k];
    assert pre[..k - 1] + [pre[k - 1]] == pre;
    assert fields[..k + 1] == pre + [f];
    NamesHaveDotsPrefix(fields, k);
    var acc := Scan(AsWritten, pre);
    ScanAfterReal(AsWritten, pre);
    PrefixNotEmpty(fields[k - 1].name);
    ScanTracks(AsWritten, pre);
    var runs := Runs(Real(pre));
    assert |runs| > 0;
    ScanSnoc(AsWritten, pre, f);
    StepStarts(AsWritten, acc, f);
    var out := acc.out + [Bumped(acc, f)];
    assert Scan(AsWritten, fields[..k + 1]).out == out;
    ScanOutGrows(AsWritten, fields, k + 1);
    assert |acc.out| == |runs| - 1;
    assert Combine(AsWritten, fields)[|acc.out|] == Bumped(acc, f);
  }

  lemma NamesHaveDotsPrefix(s: seq<Field>, k: nat)
    requires NamesHaveDots(s) && k <= |s|
    ensures NamesHaveDots(s[..k])
  {
    assert forall i :: 0 <= i < k ==> s[..k][i] == s[i];
  }
}

/** The two defects of main.go `combine`, each shown on a concrete input,
    with the repaired loop's result on the same input. */
module GroupingFindings {
  import opened Fields
  import opened Grouping

  /** `T.a` (one byte, alignment 1), padding, then `T.b` (alignment 4). */
  const LeakInput := [
    Field("T.a", "uint8", 0, 1, 1, 1, false),
    PaddingEntry(1, 3),
    Field("T.b", "uint32", 4, 8, 4, 4, false)]

  /** As written, the alignment of `T.b` leaks into the entry for `T.a`,
      whose only member has alignment 1; the repaired loop keeps 1. */
  lemma AlignmentLeaks()
    ensures NamesHaveDots(LeakInput)
    ensures Combine(AsWritten, LeakInput)[0].align == 4
    ensures Combine(Corrected, LeakInput)[0].align == 1
  {
    var a, pad, b := LeakInput[0], LeakInput[1], LeakInput[2];
    assert Prefix(a.name) == "T.a";
    assert Prefix(b.name) == "T.b";
    assert [] + [a] == [a] && [a] + [pad] == [a, pad] && [a, pad] + [b] == LeakInput;
    forall rev: Revision
      ensures Scan(rev, LeakInput) == Step(rev, Step(rev, Step(rev, Initial, a), pad), b)
    {
      ScanSnoc(rev, [], a);
      ScanSnoc(rev, [a], pad);
      ScanSnoc(rev, [a, pad], b);
    }
  }

  /** A nested struct `T.a` with two 8-byte members, last in its parent. */
  const NestedX := Field("T.a.x", "int64", 0, 8, 8, 8, false)
  const NestedY := Field("T.a.y", "int64", 8, 16, 8, 8, false)
  const NestedInput := [NestedX, NestedY]

  lemma NestedPrefixes()
    ensures Prefix(NestedX.name) == "T.a" && Prefix(NestedY.name) == "T.a"
  {
    assert DotFrom("T.a.x", 0) == 1 && DotFrom("T.a.x", 2) == 3;
    assert DotFrom("T.a.y", 0) == 1 && DotFrom("T.a.y", 2) == 3;
  }

  /** The loop state after `T.a.x`, under either revision. */
  const AfterX := Acc([], "T.a", NestedX.(name := "T.a"), false)

  lemma NestedSteps(rev: Revision)
    ensures NamesHaveDots(NestedInput)
    ensures Scan(rev, NestedInput) == Step(rev, AfterX, NestedY)
    ensures Prefix(NestedY.name) == AfterX.cur
  {
    NestedPrefixes();
    assert HasDot(NestedX.name) && HasDot(NestedY.name);
    assert [] + [NestedX] == [NestedX] && [NestedX] + [NestedY] == NestedInput;
    ScanSnoc(rev, [], NestedX);
    ScanSnoc(rev, [NestedX], NestedY);
    assert Step(rev, Initial, NestedX) == AfterX;
  }

  /** The entries `combine` returns, read off the state its loop ends in. */
  lemma CombineFrom(rev: Revision, fields: seq<Field>, acc: Acc)
    requires NamesHaveDots(fields) && Scan(rev, fields) == acc
    ensures Combine(rev, fields) == acc.out + [Sized(acc.group)]
  {
  }

  /** As written, the entry for `T.a` ends where its last member starts and
      is 8 bytes long, though its members span 16 bytes. */
  lemma GroupEndsAtLastStart()
    ensures NamesHaveDots(NestedInput)
    ensures Combine(AsWritten, NestedInput) == [Field("T.a", "struct", 0, 8, 8, 8, false)]
  {
    var g := Field("T.a", "struct", 0, 8, 8, 8, false);
    NestedScanAsWritten(g);
    CombineFrom(AsWritten, NestedInput, Acc([], "T.a", g, false));
    assert Sized(g) == g;
  }

  /** As written, `T.a.y` moves the group's end only to its own start. */
  lemma NestedScanAsWritten(g: Field)
    requires g == Field("T.a", "struct", 0, 8, 8, 8, false)
    ensures NamesHaveDots(NestedInput)
    ensures Scan(AsWritten, NestedInput) == Acc([], "T.a", g, false)
  {
    NestedSteps(AsWritten);
    assert StepAsWritten(AfterX, NestedY) == Acc([], "T.a", g, false);
  }

  /** The repaired loop gives `T.a` the 16 bytes its members span. */
  lemma GroupSpansMembers()
    ensures NamesHaveDots(NestedInput)
    ensures Combine(Corrected, NestedInput) == [Field("T.a", "struct", 0, 16, 16, 8, false)]
  {
    NestedSteps(Corrected);
    var g := Field("T.a", "struct", 0, 16, 8, 8, false);
    assert StepCorrected(AfterX, NestedY) == Acc([], "T.a", g, false);
  }
}
