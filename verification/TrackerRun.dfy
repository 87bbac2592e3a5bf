/** The tracker context and the run loop as they execute: fields updated in place, proved against the
    functions of the state, with the whole-run theorems on the loop. */
module TrackerRun {
  import opened SectionTracker
  import opened TrackerLaws
  import opened TrackerExact

  class Context {
    var states: States
    var current: Path
    var completedCycle: bool
    var unfinished: bool
    var entered: seq<Path>
    var illogical: bool

    function View(): World
      reads this
    {
      World(states, current, completedCycle, unfinished, entered, illogical)
    }

    /** `startRun`: only the root tracker exists. */
    constructor ()
      ensures View() == World(map[[] := NotStarted], [], false, false, [], false)
    {
      states, current, completedCycle := map[[] := NotStarted], [], false;
      unfinished, entered, illogical := false, [], false;
    }

    method OpenChild(p: Path)
      modifies this`states
      ensures states == SectionTracker.OpenChild(old(states), p)
    {
      var at := p;
      while !(at in states && states[at].ExecutingChildren?)
        invariant SectionTracker.OpenChild(states, at) == SectionTracker.OpenChild(old(states), p)
        decreases |at|, !(at in states && states[at].ExecutingChildren?)
      {
        states := states[at := ExecutingChildren];
        if at != [] {
          at := Parent(at);
        }
      }
    }

    method Open(p: Path)
      requires p != []
      modifies this`states, this`current
      ensures View() == SectionTracker.Open(old(View()), p)
    {
      states := states[p := Executing];
      current := p;
      OpenChild(Parent(p));
    }

    method Acquire(id: Id) returns (p: Path)
      modifies this`states, this`current
      ensures p == old(current) + [id]
      ensures View() == SectionTracker.Acquire(old(View()), id)
    {
      p := current + [id];
      if p !in states {
        states := states[p := NotStarted];
      }
      if !completedCycle && !Complete(states[p]) {
        Open(p);
      }
    }

    method CloseCurrent()
      modifies this`states, this`current, this`completedCycle, this`illogical
      ensures View() == SectionTracker.CloseCurrent(old(View()))
    {
      if current == [] || current !in states || !IsOpen(states[current]) {
        illogical := true;
        return;
      }
      if states[current].Executing? {
        states := states[current := CompletedSuccessfully];
      } else if states[current].ExecutingChildren? && ChildrenComplete(states, current) {
        states := states[current := CompletedSuccessfully];
      }
      current := Parent(current);
      completedCycle := true;
    }

    /** Closes whatever is still open below `p` first. */
    method Close(p: Path)
      modifies this`states, this`current, this`completedCycle, this`illogical
      ensures View() == SectionTracker.Close(old(View()), p)
    {
      while current != p && |current| > |p|
        invariant SectionTracker.Close(View(), p) == SectionTracker.Close(old(View()), p)
        decreases |current|
      {
        var depth := |current|;
        CloseCurrent();
        if |current| == depth {
          return;
        }
      }
      CloseCurrent();
    }

    method Fail(p: Path)
      requires p != []
      modifies this`states, this`current, this`completedCycle
      ensures View() == SectionTracker.Fail(old(View()), p)
    {
      states := states[p := Failed];
      states := states[Parent(p) := NeedsAnotherRun];
      current := Parent(p);
      completedCycle := true;
    }

    /** `sectionStarted`: whether the section's body is to be run. */
    method SectionStarted(id: Id) returns (q: Path, open: bool)
      modifies this`states, this`current
      ensures View() == SectionTracker.Acquire(old(View()), id)
      ensures q == old(current) + [id] && open == (q in states && IsOpen(states[q]))
    {
      q := Acquire(id);
      open := q in states && IsOpen(states[q]);
    }

    method SectionEndedEarly(p: Path)
      requires p != []
      modifies this
      ensures View() == EndEarly(old(View()), p)
    {
      if !unfinished {
        Fail(p);
      } else {
        Close(p);
      }
      unfinished := true;
    }

    /** The body of the tracker at `p`: each section in turn, unless the body throws first. */
    method RunBody(p: Path, kids: seq<Section>, o: Oracle, c: nat) returns (threw: bool)
      modifies this
      ensures (View(), threw) == RunKids(old(View()), p, kids, 0, o, c)
      decreases kids
    {
      var i := 0;
      while i < |kids| && !o(c, p, i)
        invariant i <= |kids|
        invariant RunKids(View(), p, kids, i, o, c) == RunKids(old(View()), p, kids, 0, o, c)
      {
        var q, open := SectionStarted(kids[i].id);
        if open {
          var sectionThrew := RunOne(q, kids[i], o, c);
          if sectionThrew {
            SectionEndedEarly(q);
            return true;
          }
          Close(q);
        }
        i := i + 1;
      }
      threw := o(c, p, i);
    }

    method RunOne(q: Path, s: Section, o: Oracle, c: nat) returns (threw: bool)
      modifies this
      ensures (View(), threw) == RunSection(old(View()), q, s, o, c)
      decreases s
    {
      if s.kids == [] {
        entered := entered + [q];
      }
      threw := RunBody(q, s.kids, o, c);
    }

    /** One pass of the loop in `runTest`. */
    method RunCycle(test: Section, o: Oracle, c: nat)
      modifies this
      ensures View() == Cycle(old(View()), test, o, c)
    {
      current, completedCycle := [], false;
      var q := Acquire(test.id);
      assert q == [test.id];
      var _ := RunOne(q, test, o, c);
      Close(q);
      unfinished := false;
    }
  }

  // ---- the whole run ----

  /** The number of sections of a tree. */
  function Size(s: Section): nat
    decreases s, 1
  {
    1 + SizeKids(s.kids)
  }

  function SizeKids(kids: seq<Section>): nat
    decreases kids, 0
  {
    if kids == [] then 0 else SizeKids(kids[..|kids| - 1]) + Size(kids[|kids| - 1])
  }

  lemma {:induction false} TodoAtStart(p: Path, s: Section)
    ensures Todo(map[[] := NotStarted], p, s) == Size(s)
    decreases s, 1
  {
    TodoKidsAtStart(p, s.kids);
  }

  lemma {:induction false} TodoKidsAtStart(p: Path, kids: seq<Section>)
    ensures TodoKids(map[[] := NotStarted], p, kids) == SizeKids(kids)
    decreases kids, 0
  {
    if kids != [] {
      TodoKidsAtStart(p, kids[..|kids| - 1]);
      TodoAtStart(p + [kids[|kids| - 1].id], kids[|kids| - 1]);
    }
  }

  function Flat(runs: seq<seq<Path>>): seq<Path> {
    if runs == [] then [] else Flat(runs[..|runs| - 1]) + runs[|runs| - 1]
  }

  lemma FlatPush(runs: seq<seq<Path>>, run: seq<Path>)
    ensures Flat(runs + [run]) == Flat(runs) + run
  {
    assert (runs + [run])[..|runs|] == runs;
  }

  /** Everything entered so far is complete, and nothing was entered twice. */
  ghost predicate EnteredAndDone(w: World) {
    AllDifferent(w.entered) && forall i | 0 <= i < |w.entered| :: Done(w.states, w.entered[i])
  }

  lemma EnteredKeeps(w: World, w': World)
    requires EnteredAndDone(w) && Monotone(w.states, w'.states) && EnteredOnce(w, w')
    ensures EnteredAndDone(w') && w.entered <= w'.entered && |w'.entered| <= |w.entered| + 1
  {
  }

  /** Leaves entered so far, one a cycle, and those that remain are all the leaves, in order. */
  ghost predicate OnTrack(w: World, runs: seq<seq<Path>>, test: Section) {
    && Live(w.states, [test.id], test)
    && w.entered + Remaining(w.states, [test.id], test) == Leaves([test.id], test)
    && |runs| == |w.entered| && forall k | 0 <= k < |runs| :: runs[k] == [w.entered[k]]
  }

  lemma TrackKeeps(w: World, w': World, runs: seq<seq<Path>>, test: Section)
    requires OnTrack(w, runs, test) && SectionLeaf(w, w', [test.id], test)
    ensures w.entered <= w'.entered && OnTrack(w', runs + [w'.entered[|w.entered|..]], test)
  {
    hide Live, Remaining, Leaves;
    var r := Remaining(w.states, [test.id], test);
    assert [r[0]] + r[1..] == r;
    assert w'.entered[|w.entered|..] == [r[0]];
  }

  lemma Started0(test: Section)
    ensures var w := World(map[[] := NotStarted], [], false, false, [], false);
            && Idle(w, test) && !Done(w.states, [test.id]) && OnTrack(w, [], test) && EnteredAndDone(w)
            && Todo(w.states, [test.id], test) == Size(test)
  {
    NothingDone([test.id], test);
    TodoAtStart([test.id], test);
  }

  lemma TrackEnds(w: World, runs: seq<seq<Path>>, test: Section)
    requires OnTrack(w, runs, test) && Remaining(w.states, [test.id], test) == []
    ensures w.entered == Leaves([test.id], test)
  {
    hide Live, Remaining, Leaves;
  }

  /** `runTest`: cycle until the test case is complete. For any pattern of throws the loop ends, in at most
      as many cycles as there are sections, each cycle enters at most one leaf and no leaf is entered
      twice; and when nothing throws the cycles enter exactly the leaves, one each, in source order. */
  method RunTest(test: Section, o: Oracle) returns (runs: seq<seq<Path>>)
    requires WellFormed(test)
    ensures 0 < |runs| <= Size(test)
    ensures forall k | 0 <= k < |runs| :: |runs[k]| <= 1
    ensures AllDifferent(Flat(runs))
    ensures Quiet(o) ==>
              && |runs| == |Leaves([test.id], test)|
              && forall k | 0 <= k < |runs| :: runs[k] == [Leaves([test.id], test)[k]]
  {
    hide Idle, Monotone, EnteredOnce, OnTrack, SectionLeaf, EnteredAndDone, Cycle, WellFormed;
    var ctx := new Context();
    Started0(test);
    runs := [];
    var more := true;
    while more
      invariant fresh(ctx)
      invariant Idle(ctx.View(), test) && (more <==> !Done(ctx.states, [test.id]))
      invariant more || |runs| > 0
      invariant |runs| + Todo(ctx.states, [test.id], test) <= Size(test)
      invariant EnteredAndDone(ctx.View()) && Flat(runs) == ctx.entered
      invariant forall k | 0 <= k < |runs| :: |runs[k]| <= 1
      invariant Quiet(o) ==> OnTrack(ctx.View(), runs, test)
      invariant Quiet(o) && !more ==> Remaining(ctx.states, [test.id], test) == []
      decreases Todo(ctx.states, [test.id], test)
    {
      ghost var w := ctx.View();
      var before := |ctx.entered|;
      CycleLaw(w, test, o, |runs|);
      if Quiet(o) {
        TrackLive(w, runs, test);
        ExactCycle(w, test, o, |runs|);
      }
      ctx.RunCycle(test, o, |runs|);
      EnteredKeeps(w, ctx.View());
      if Quiet(o) {
        TrackKeeps(w, ctx.View(), runs, test);
      }
      FlatPush(runs, ctx.entered[before..]);
      runs := runs + [ctx.entered[before..]];
      TestState(ctx.View(), test);
      more := !([test.id] in ctx.states && ctx.states[[test.id]].CompletedSuccessfully?);
    }
    FlatEntered(ctx.View());
    if Quiet(o) {
      TrackEnds(ctx.View(), runs, test);
      TrackRuns(ctx.View(), runs, test);
    }
  }

  lemma TrackLive(w: World, runs: seq<seq<Path>>, test: Section)
    requires OnTrack(w, runs, test)
    ensures Live(w.states, [test.id], test)
  {
  }

  lemma TrackRuns(w: World, runs: seq<seq<Path>>, test: Section)
    requires OnTrack(w, runs, test)
    ensures |runs| == |w.entered| && forall k | 0 <= k < |runs| :: runs[k] == [w.entered[k]]
  {
  }

  lemma TestState(w: World, test: Section)
    requires Idle(w, test)
    ensures Done(w.states, [test.id]) <==> [test.id] in w.states && w.states[[test.id]].CompletedSuccessfully?
  {
  }

  lemma FlatEntered(w: World)
    requires EnteredAndDone(w)
    ensures AllDifferent(w.entered)
  {
  }
}
