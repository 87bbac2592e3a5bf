/** The section tracker: the tree of trackers a test case builds, and one cycle of running its body.

    A tracker is named by its path from the root, since a parent finds a child by name and location.
    The test body is a tree of sections; it may throw before any section or at the end of any body. */
module SectionTracker {
  type Id = nat
  type Path = seq<Id>

  /** A section of the test body: its name and location, and the sections it contains, in source order. */
  datatype Section = Section(id: Id, kids: seq<Section>)

  datatype CycleState = NotStarted | Executing | ExecutingChildren | NeedsAnotherRun | CompletedSuccessfully | Failed

  type States = map<Path, CycleState>

  /** The tracker context, the run context's list of unfinished sections (only whether it is empty
      matters), the leaf bodies entered so far, and whether an internal error was ever raised. */
  datatype World = World(states: States, current: Path, completedCycle: bool, unfinished: bool, entered: seq<Path>,
    illogical: bool)

  /** Whether the body at a path throws at a position, in a given cycle. */
  type Oracle = (nat, Path, nat) -> bool

  function Parent(p: Path): Path
    requires p != []
  {
    p[..|p| - 1]
  }

  predicate Complete(s: CycleState) { s.CompletedSuccessfully? || s.Failed? }

  predicate IsOpen(s: CycleState) { !s.NotStarted? && !Complete(s) }

  predicate Done(st: States, p: Path) { p in st && Complete(st[p]) }

  predicate Started(st: States, p: Path) { p in st && !st[p].NotStarted? }

  predicate IsChild(p: Path, q: Path) { |q| == |p| + 1 && q[..|p|] == p }

  predicate ChildrenComplete(st: States, p: Path) {
    forall q | q in st.Keys && IsChild(p, q) :: Complete(st[q])
  }

  // ---- the operations, as functions of the state ----

  /** Marks a tracker as executing a child, and so on up the tree until one already is. */
  function OpenChild(st: States, p: Path): States
    decreases |p|
  {
    if p in st && st[p].ExecutingChildren? then st
    else if p == [] then st[p := ExecutingChildren]
    else OpenChild(st[p := ExecutingChildren], Parent(p))
  }

  function Open(w: World, p: Path): World
    requires p != []
  {
    w.(states := OpenChild(w.states[p := Executing], Parent(p)), current := p)
  }

  /** Finds the child of the current tracker or creates it, and opens it unless the cycle is over. */
  function Acquire(w: World, id: Id): World {
    var p := w.current + [id];
    var w1 := if p in w.states then w else w.(states := w.states[p := NotStarted]);
    if !w1.completedCycle && !Complete(w1.states[p]) then Open(w1, p) else w1
  }

  function ClosedState(st: States, p: Path): CycleState
    requires p in st
  {
    match st[p]
    case Executing => CompletedSuccessfully
    case ExecutingChildren => if ChildrenComplete(st, p) then CompletedSuccessfully else ExecutingChildren
    case s => s
  }

  /** Closing is an internal error unless the tracker is open. */
  function CloseCurrent(w: World): World {
    if w.current == [] || w.current !in w.states || !IsOpen(w.states[w.current]) then w.(illogical := true)
    else w.(states := w.states[w.current := ClosedState(w.states, w.current)], current := Parent(w.current),
      completedCycle := true)
  }

  /** Closes the trackers still open below `p`, then `p`. */
  function Close(w: World, p: Path): World
    decreases |w.current|
  {
    if w.current == p || |w.current| <= |p| || w.current == [] then CloseCurrent(w)
    else
      var w1 := CloseCurrent(w);
      if |w1.current| < |w.current| then Close(w1, p) else w1
  }

  function Fail(w: World, p: Path): World
    requires p != []
  {
    w.(states := w.states[p := Failed][Parent(p) := NeedsAnotherRun], current := Parent(p), completedCycle := true)
  }

  /** An exception leaves a section: the innermost one fails, the ones around it are closed. */
  function EndEarly(w: World, p: Path): World
    requires p != []
  {
    (if w.unfinished then Close(w, p) else Fail(w, p)).(unfinished := true)
  }

  // ---- running bodies ----

  /** The body of the tracker at `p`, which is the current one, from its `i`-th section on; says whether it threw. */
  function RunKids(w: World, p: Path, kids: seq<Section>, i: nat, o: Oracle, c: nat): (World, bool)
    requires i <= |kids|
    decreases kids, |kids| - i, 1
  {
    if o(c, p, i) then (w, true)
    else if i == |kids| then (w, false)
    else
      var q := w.current + [kids[i].id];
      var w1 := Acquire(w, kids[i].id);
      if !(q in w1.states && IsOpen(w1.states[q])) then RunKids(w1, p, kids, i + 1, o, c)
      else
        var (w2, threw) := RunSection(w1, q, kids[i], o, c);
        if threw then (EndEarly(w2, q), true) else RunKids(Close(w2, q), p, kids, i + 1, o, c)
  }

  function RunSection(w: World, q: Path, s: Section, o: Oracle, c: nat): (World, bool)
    decreases s, 0, 0
  {
    RunKids(if s.kids == [] then w.(entered := w.entered + [q]) else w, q, s.kids, 0, o, c)
  }

  /** One pass of the run loop. */
  function Cycle(w: World, test: Section, o: Oracle, c: nat): World {
    var w0 := w.(current := [], completedCycle := false);
    var w1 := Acquire(w0, test.id);
    var (w2, _) := RunSection(w1, [test.id], test, o, c);
    Close(w2, [test.id]).(unfinished := false)
  }
}
