/** What the groups of kept lines are: the maximal stretches of lines that are no gaps.

    A gap is a blank line outside fences; a fence is open from the line that opens it to the line
    that closes it. */
module MarkdownGroups {
  import opened Options
  import opened Seqs
  import opened MarkdownNormalizer

  /** The mark of each line, None for a gap. */
  function Marks(lines: seq<string>): (ms: seq<Option<Marked>>)
    ensures |ms| == |lines|
  {
    if lines == [] then [] else
    var front, line := lines[..|lines| - 1], lines[|lines| - 1];
    Marks(front) + [if Gap(FenceAfter(front), line) then None else Some(Mark(FenceAfter(front), line))]
  }

  /** A mark depends on the line and on the fence that is open in front of it. */
  lemma {:induction false} MarkAt(lines: seq<string>, i: nat)
    requires i < |lines|
    ensures var fence := FenceAfter(lines[..i]);
      Marks(lines)[i] == if Gap(fence, lines[i]) then None else Some(Mark(fence, lines[i]))
    decreases |lines|
  {
    if i < |lines| - 1 {
      MarkAt(lines[..|lines| - 1], i);
      assert lines[..|lines| - 1][..i] == lines[..i];
    }
  }

  /** The group is the marks from `start` on. */
  ghost predicate Stretch(ms: seq<Option<Marked>>, start: nat, group: seq<Marked>) {
    && start + |group| <= |ms|
    && forall j :: 0 <= j < |group| ==> ms[start + j] == Some(group[j])
  }

  ghost predicate CoveredBy(starts: seq<nat>, groups: seq<seq<Marked>>, i: nat) {
    exists g :: 0 <= g < |groups| && g < |starts| && starts[g] <= i < starts[g] + |groups[g]|
  }

  /** The groups are stretches in ascending order, none empty, with a line between any two, and every line
      is in one of them or a gap. */
  ghost predicate Stretches(ms: seq<Option<Marked>>, starts: seq<nat>, groups: seq<seq<Marked>>) {
    && |starts| == |groups|
    && (forall g :: 0 <= g < |groups| ==> groups[g] != [] && Stretch(ms, starts[g], groups[g]))
    && (forall g, h :: 0 <= g < h < |groups| ==> starts[g] + |groups[g]| < starts[h])
    && (forall i :: 0 <= i < |ms| ==> ms[i].None? || CoveredBy(starts, groups, i))
  }

  /** Where the last group ends. */
  function EndOf(starts: seq<nat>, groups: seq<seq<Marked>>): nat
    requires |starts| == |groups| > 0
  {
    starts[|starts| - 1] + |groups[|groups| - 1]|
  }

  lemma StretchesGap(ms: seq<Option<Marked>>, starts: seq<nat>, groups: seq<seq<Marked>>)
    requires Stretches(ms, starts, groups)
    ensures Stretches(ms + [None], starts, groups)
  {
    forall g | 0 <= g < |groups| ensures Stretch(ms + [None], starts[g], groups[g]) {
      assert Stretch(ms, starts[g], groups[g]);
    }
  }

  lemma CoveredStays(starts: seq<nat>, groups: seq<seq<Marked>>, more: seq<nat>, longer: seq<seq<Marked>>, i: nat)
    requires CoveredBy(starts, groups, i) && |starts| <= |more| && |groups| <= |longer|
    requires forall g :: 0 <= g < |groups| && g < |starts| ==> more[g] == starts[g] && |longer[g]| >= |groups[g]|
    ensures CoveredBy(more, longer, i)
  {
    var g :| 0 <= g < |groups| && g < |starts| && starts[g] <= i < starts[g] + |groups[g]|;
    assert more[g] <= i < more[g] + |longer[g]|;
  }

  lemma LineJoins(
    ms: seq<Option<Marked>>, m: Marked, starts: seq<nat>, groups: seq<seq<Marked>>, longer: seq<seq<Marked>>)
    requires Stretches(ms, starts, groups) && groups != [] && EndOf(starts, groups) == |ms|
    requires longer == groups[|groups| - 1 := groups[|groups| - 1] + [m]]
    ensures Stretches(ms + [Some(m)], starts, longer) && longer != [] && EndOf(starts, longer) == |ms| + 1
  {
    var last, ms' := |groups| - 1, ms + [Some(m)];
    forall g | 0 <= g < |longer| ensures Stretch(ms', starts[g], longer[g]) {
      assert Stretch(ms, starts[g], groups[g]);
    }
    forall i | 0 <= i < |ms'| ensures ms'[i].None? || CoveredBy(starts, longer, i) {
      if i == |ms| {
        assert starts[last] <= i < starts[last] + |longer[last]|;
      } else if ms[i].Some? {
        CoveredStays(starts, groups, starts, longer, i);
      }
    }
  }

  lemma OpenedCovers(ms: seq<Option<Marked>>, m: Marked, starts: seq<nat>, groups: seq<seq<Marked>>, i: nat)
    requires Stretches(ms, starts, groups) && i <= |ms|
    ensures (ms + [Some(m)])[i].None? || CoveredBy(starts + [|ms|], groups + [[m]], i)
  {
    var more, longer := starts + [|ms|], groups + [[m]];
    if i == |ms| {
      assert more[|groups|] <= i < more[|groups|] + |longer[|groups|]|;
    } else if ms[i].Some? {
      CoveredStays(starts, groups, more, longer, i);
    }
  }

  lemma OpenedStretch(ms: seq<Option<Marked>>, m: Marked, starts: seq<nat>, groups: seq<seq<Marked>>, g: nat)
    requires Stretches(ms, starts, groups) && g <= |groups|
    ensures (groups + [[m]])[g] != [] && Stretch(ms + [Some(m)], (starts + [|ms|])[g], (groups + [[m]])[g])
  {
    if g < |groups| {
      assert Stretch(ms, starts[g], groups[g]);
    }
  }

  lemma LineOpens(ms: seq<Option<Marked>>, m: Marked, starts: seq<nat>, groups: seq<seq<Marked>>)
    requires Stretches(ms, starts, groups) && (groups != [] ==> EndOf(starts, groups) < |ms|)
    ensures Stretches(ms + [Some(m)], starts + [|ms|], groups + [[m]])
  {
    var ms', more, longer := ms + [Some(m)], starts + [|ms|], groups + [[m]];
    EndsBefore(ms, starts, groups);
    forall g | 0 <= g < |longer| ensures longer[g] != [] && Stretch(ms', more[g], longer[g]) {
      OpenedStretch(ms, m, starts, groups, g);
    }
    forall i | 0 <= i < |ms'| ensures ms'[i].None? || CoveredBy(more, longer, i) {
      OpenedCovers(ms, m, starts, groups, i);
    }
  }

  lemma EndsBefore(ms: seq<Option<Marked>>, starts: seq<nat>, groups: seq<seq<Marked>>)
    requires Stretches(ms, starts, groups) && (groups != [] ==> EndOf(starts, groups) < |ms|)
    ensures forall g :: 0 <= g < |groups| ==> starts[g] + |groups[g]| < |ms|
  {
    forall g | 0 <= g < |groups| ensures starts[g] + |groups[g]| < |ms| {
      if g < |groups| - 1 {
        assert starts[g] + |groups[g]| < starts[|groups| - 1];
      }
    }
  }

  /** What is known of the groups read so far. */
  ghost predicate Reads(ms: seq<Option<Marked>>, starts: seq<nat>, g: Groups) {
    && Stretches(ms, starts, g.groups)
    && (g.groups != [] ==> if g.open then EndOf(starts, g.groups) == |ms| else EndOf(starts, g.groups) < |ms|)
  }

  lemma ReadGap(ms: seq<Option<Marked>>, starts: seq<nat>, g: Groups)
    requires Reads(ms, starts, g)
    ensures Reads(ms + [None], starts, g.(open := false))
  {
    StretchesGap(ms, starts, g.groups);
  }

  lemma ReadOpen(ms: seq<Option<Marked>>, starts: seq<nat>, g: Groups, m: Marked)
    requires Reads(ms, starts, g) && g.open && g.groups != []
    ensures Reads(ms + [Some(m)], starts, Extend(g, m))
  {
    LineJoins(ms, m, starts, g.groups, Extend(g, m).groups);
  }

  lemma ReadNew(ms: seq<Option<Marked>>, starts: seq<nat>, g: Groups, m: Marked)
    requires Reads(ms, starts, g) && !(g.open && g.groups != [])
    ensures Reads(ms + [Some(m)], starts + [|ms|], Extend(g, m))
  {
    LineOpens(ms, m, starts, g.groups);
  }

  lemma ReadLine(ms: seq<Option<Marked>>, starts: seq<nat>, g: Groups, mark: Option<Marked>) returns (starts': seq<nat>)
    requires Reads(ms, starts, g)
    ensures Reads(ms + [mark], starts', if mark.None? then g.(open := false) else Extend(g, mark.value))
  {
    starts' := starts;
    if mark.None? {
      ReadGap(ms, starts, g);
    } else if g.open && g.groups != [] {
      ReadOpen(ms, starts, g, mark.value);
    } else {
      ReadNew(ms, starts, g, mark.value);
      starts' := starts + [|ms|];
    }
  }

  /** The groups of a text are its maximal stretches of lines that are no gaps, in order, each line marked
      by the fence that is open in front of it: no other line is left out, and none is repeated. */
  lemma {:induction false} GroupsAreStretches(lines: seq<string>) returns (starts: seq<nat>)
    ensures Reads(Marks(lines), starts, GroupsOf(lines))
  {
    starts := [];
    if lines != [] {
      var front, line := lines[..|lines| - 1], lines[|lines| - 1];
      starts := GroupsAreStretches(front);
      var mark := if Gap(FenceAfter(front), line) then None else Some(Mark(FenceAfter(front), line));
      starts := ReadLine(Marks(front), starts, GroupsOf(front), mark);
    }
  }

  function Kept(): Option<Marked> -> seq<Marked> { (mark: Option<Marked>) => if mark.Some? then [mark.value] else [] }

  lemma ExtendAppends(g: Groups, m: Marked)
    ensures Flatten(Extend(g, m).groups) == Flatten(g.groups) + [m]
  {
    if g.open && g.groups != [] {
      var front, last := g.groups[..|g.groups| - 1], g.groups[|g.groups| - 1];
      assert g.groups == front + [last] && Extend(g, m).groups == front + [last + [m]];
      FlattenAppend(front, [last]);
      FlattenAppend(front, [last + [m]]);
      assert Flatten([last]) == last && Flatten([last + [m]]) == last + [m];
    } else {
      FlattenAppend(g.groups, [[m]]);
      assert Flatten([[m]]) == [m];
    }
  }

  /** One group after the other, the groups hold exactly the marked lines that are no gaps, in order. */
  lemma {:induction false} GroupsKeepLines(lines: seq<string>)
    ensures Flatten(GroupsOf(lines).groups) == FlatMap(Marks(lines), Kept())
  {
    if lines != [] {
      var front, line := lines[..|lines| - 1], lines[|lines| - 1];
      var mark := if Gap(FenceAfter(front), line) then None else Some(Mark(FenceAfter(front), line));
      GroupsKeepLines(front);
      FlatMapAppend(Marks(front), [mark], Kept());
      assert FlatMap([mark], Kept()) == Kept()(mark);
      if mark.Some? {
        ExtendAppends(GroupsOf(front), mark.value);
      }
    }
  }
}
