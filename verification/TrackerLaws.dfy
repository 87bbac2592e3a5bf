/** What every cycle of the section tracker keeps, whatever throws. */
module TrackerLaws {
  import opened SectionTracker

  // ---- agreement of two states on and off a subtree ----

  predicate SameAt(a: States, b: States, q: Path) { (q in a <==> q in b) && (q in a ==> a[q] == b[q]) }

  ghost predicate SameBelow(a: States, b: States, p: Path) { forall q: Path | p <= q :: SameAt(a, b, q) }

  ghost predicate SameStrictlyBelow(a: States, b: States, p: Path) {
    forall q: Path | p <= q && p != q :: SameAt(a, b, q)
  }

  ghost predicate SameOutside(a: States, b: States, p: Path) { forall q: Path | !(p <= q) :: SameAt(a, b, q) }

  lemma SiblingsApart(p: Path, x: Id, y: Id, q: Path)
    requires x != y && p + [x] <= q
    ensures !(p + [y] <= q)
  {
    assert q[|p|] == (p + [x])[|p|] == x && (p + [y])[|p|] == y;
  }

  /** A change confined to one child's subtree does not reach another child's. */
  lemma OtherSubtree(a: States, b: States, p: Path, x: Id, y: Id)
    requires SameOutside(a, b, p + [x]) && x != y
    ensures SameBelow(a, b, p + [y])
  {
    forall q: Path | p + [y] <= q
      ensures SameAt(a, b, q)
    {
      SiblingsApart(p, y, x, q);
    }
  }

  // ---- the shape of a tracker tree between cycles ----

  ghost predicate Virgin(st: States, p: Path) { forall q | q in st && p <= q :: q == p }

  /** A started section has all its earlier siblings complete. */
  ghost predicate Ordered(st: States, p: Path, kids: seq<Section>) {
    forall i, j | 0 <= i < j < |kids| && Started(st, p + [kids[j].id]) :: Done(st, p + [kids[i].id])
  }

  ghost predicate Tidy(st: States, p: Path, s: Section)
    decreases s, 1
  {
    if !Started(st, p) then Virgin(st, p)
    else Complete(st[p]) || (!st[p].Executing? && TidyKids(st, p, s.kids))
  }

  ghost predicate TidyKids(st: States, p: Path, kids: seq<Section>)
    decreases kids, 0
  {
    && Ordered(st, p, kids)
    && forall i | 0 <= i < |kids| :: Tidy(st, p + [kids[i].id], kids[i])
  }

  predicate Distinct(kids: seq<Section>) { forall i, j | 0 <= i < j < |kids| :: kids[i].id != kids[j].id }

  /** Sections are distinct among siblings, everywhere in the tree. */
  predicate WellFormed(s: Section)
    decreases s, 1
  {
    WellFormedKids(s.kids)
  }

  predicate WellFormedKids(kids: seq<Section>)
    decreases kids, 0
  {
    Distinct(kids) && forall i | 0 <= i < |kids| :: WellFormed(kids[i])
  }

  /** How many sections of the tree are not complete. */
  function Todo(st: States, p: Path, s: Section): nat
    decreases s, 1
  {
    (if Done(st, p) then 0 else 1) + TodoKids(st, p, s.kids)
  }

  function TodoKids(st: States, p: Path, kids: seq<Section>): nat
    decreases kids, 0
  {
    if kids == [] then 0
    else TodoKids(st, p, kids[..|kids| - 1]) + Todo(st, p + [kids[|kids| - 1].id], kids[|kids| - 1])
  }

  lemma {:induction false} TidyFrame(a: States, b: States, p: Path, s: Section)
    requires SameBelow(a, b, p)
    ensures Tidy(a, p, s) == Tidy(b, p, s)
    decreases s, 1
  {
    assert SameAt(a, b, p);
    VirginFrame(a, b, p);
    TidyKidsFrame(a, b, p, s.kids);
  }

  lemma VirginFrame(a: States, b: States, p: Path)
    requires SameBelow(a, b, p)
    ensures Virgin(a, p) == Virgin(b, p)
  {
    if Virgin(a, p) {
      forall q | q in b && p <= q ensures q == p { assert SameAt(a, b, q); }
    }
    if Virgin(b, p) {
      forall q | q in a && p <= q ensures q == p { assert SameAt(a, b, q); }
    }
  }

  lemma BelowKid(a: States, b: States, p: Path, x: Id)
    requires SameStrictlyBelow(a, b, p)
    ensures SameBelow(a, b, p + [x]) && SameAt(a, b, p + [x])
  {
    assert p <= p + [x];
    forall q: Path | p + [x] <= q
      ensures SameAt(a, b, q)
    {
      assert p <= q;
    }
  }

  lemma {:induction false} TidyKidsFrame(a: States, b: States, p: Path, kids: seq<Section>)
    requires SameStrictlyBelow(a, b, p)
    ensures TidyKids(a, p, kids) == TidyKids(b, p, kids)
    decreases kids, 0
  {
    forall i | 0 <= i < |kids|
      ensures SameAt(a, b, p + [kids[i].id]) && Tidy(a, p + [kids[i].id], kids[i]) == Tidy(b, p + [kids[i].id], kids[i])
    {
      BelowKid(a, b, p, kids[i].id);
      TidyFrame(a, b, p + [kids[i].id], kids[i]);
    }
  }

  /** Nothing complete becomes incomplete. */
  ghost predicate Monotone(a: States, b: States) { forall q | Done(a, q) :: Done(b, q) }

  lemma {:induction false} TodoMonotone(a: States, b: States, p: Path, s: Section)
    requires Monotone(a, b)
    ensures Todo(b, p, s) <= Todo(a, p, s)
    decreases s, 1
  {
    TodoKidsMonotone(a, b, p, s.kids);
  }

  lemma {:induction false} TodoKidsMonotone(a: States, b: States, p: Path, kids: seq<Section>)
    requires Monotone(a, b)
    ensures TodoKids(b, p, kids) <= TodoKids(a, p, kids)
    decreases kids, 0
  {
    if kids != [] {
      var last := kids[|kids| - 1];
      TodoKidsMonotone(a, b, p, kids[..|kids| - 1]);
      TodoMonotone(a, b, p + [last.id], last);
    }
  }

  /** Progress in one child is progress. */
  lemma {:induction false} TodoKidsDrop(a: States, b: States, p: Path, kids: seq<Section>, i: nat)
    requires Monotone(a, b) && i < |kids|
    requires Todo(b, p + [kids[i].id], kids[i]) < Todo(a, p + [kids[i].id], kids[i])
    ensures TodoKids(b, p, kids) < TodoKids(a, p, kids)
    decreases kids, 0
  {
    var last := kids[|kids| - 1];
    if i == |kids| - 1 {
      TodoKidsMonotone(a, b, p, kids[..|kids| - 1]);
    } else {
      TodoMonotone(a, b, p + [last.id], last);
      TodoKidsDrop(a, b, p, kids[..|kids| - 1], i);
    }
  }

  // ---- where a run of a body stands ----

  /** `p` is open below a parent that is executing children. */
  predicate Chain(st: States, p: Path) {
    && p != [] && p in st && IsOpen(st[p])
    && Parent(p) in st && st[Parent(p)].ExecutingChildren?
  }

  /** Ready to run the body of `p` from its `i`-th section: if nothing was run in this cycle yet then all
      sections before are complete, and otherwise none from here on was ever started. */
  ghost predicate Ready(w: World, p: Path, kids: seq<Section>, i: nat) {
    && w.current == p && !w.illogical && !w.unfinished && Chain(w.states, p)
    && TidyKids(w.states, p, kids)
    && (if w.completedCycle then forall j | i <= j < |kids| :: !Started(w.states, p + [kids[j].id])
        else forall j | 0 <= j < i && j < |kids| :: Done(w.states, p + [kids[j].id]))
  }

  /** At most one more leaf was entered; it was not complete before and is now. */
  ghost predicate EnteredOnce(w: World, w': World) {
    || w'.entered == w.entered
    || (&& |w'.entered| == |w.entered| + 1 && w'.entered[..|w.entered|] == w.entered
        && !Done(w.states, w'.entered[|w.entered|]) && Done(w'.states, w'.entered[|w.entered|]))
  }

  /** What running a body achieves. */
  ghost predicate Ran(w: World, w': World, p: Path, kids: seq<Section>, threw: bool) {
    && w'.current == p && !w'.illogical && Chain(w'.states, p)
    && TidyKids(w'.states, p, kids)
    && SameOutside(w.states, w'.states, p) && Monotone(w.states, w'.states)
    && EnteredOnce(w, w')
    && (w.completedCycle ==> w'.completedCycle && w'.entered == w.entered)
    && (w'.completedCycle && !w.completedCycle ==> TodoKids(w'.states, p, kids) < TodoKids(w.states, p, kids))
    && (!w'.completedCycle ==> w'.states == w.states && w'.entered == w.entered)
    && (w'.unfinished ==> threw && w'.completedCycle)
  }

  // ---- acquiring a section ----

  /** It is opened, its parent becoming one that executes children. */
  lemma AcquireOpens(w: World, p: Path, id: Id)
    requires w.current == p && !w.completedCycle && !Done(w.states, p + [id]) && Chain(w.states, p)
    ensures Acquire(w, id) == w.(states := w.states[p + [id] := Executing][p := ExecutingChildren], current := p + [id])
  {
    var q := p + [id];
    assert Parent(q) == p;
    var st := if q in w.states then w.states else w.states[q := NotStarted];
    assert st[q := Executing] == w.states[q := Executing];
    assert Parent(p) != q;
    var st1 := w.states[q := Executing];
    if st1[p].ExecutingChildren? {
      assert st1[p := ExecutingChildren] == st1;
    } else {
      assert OpenChild(st1, p) == OpenChild(st1[p := ExecutingChildren], Parent(p));
    }
  }

  /** It is not opened: it is complete, or the cycle is over and at most it becomes known. */
  lemma AcquireSkips(w: World, p: Path, id: Id)
    requires w.current == p && (w.completedCycle || Done(w.states, p + [id]))
    ensures Acquire(w, id) == w.(states := if p + [id] in w.states then w.states else w.states[p + [id] := NotStarted])
  {
  }

  // ---- leaving a section ----

  function Leave(w: World, q: Path, threw: bool): World
    requires q != []
  {
    if threw then EndEarly(w, q) else Close(w, q)
  }

  /** What entering and leaving the section at `q` achieves: nothing outside its subtree changes except
      that its parent may need another run, and at least one more section is complete. */
  ghost predicate Left(w: World, w': World, q: Path, s: Section, threw: bool)
    requires q != []
  {
    && w'.current == Parent(q) && !w'.illogical && w'.completedCycle && w'.unfinished == threw
    && Parent(q) in w'.states && (w'.states[Parent(q)].ExecutingChildren? || w'.states[Parent(q)].NeedsAnotherRun?)
    && (forall r: Path | !(q <= r) && r != Parent(q) :: SameAt(w.states, w'.states, r))
    && Tidy(w'.states, q, s) && Started(w'.states, q)
    && Monotone(w.states, w'.states)
    && Todo(w'.states, q, s) < Todo(w.states, q, s)
    && EnteredOnce(w, w')
  }

  lemma LeaveEffect(w: World, q: Path, threw: bool)
    requires w.current == q && Chain(w.states, q)
    ensures var w' := Leave(w, q, threw);
            && w'.current == Parent(q) && w'.completedCycle && w'.unfinished == (w.unfinished || threw)
            && w'.illogical == w.illogical && w'.entered == w.entered
            && w'.states == if threw && !w.unfinished then w.states[q := Failed][Parent(q) := NeedsAnotherRun]
                            else w.states[q := ClosedState(w.states, q)]
  {
  }

  function Logged(w: World, q: Path, s: Section): World {
    if s.kids == [] then w.(entered := w.entered + [q]) else w
  }

  /** `w1` is the state in which `q` has just been opened, `w2` the one in which its body has ended. */
  lemma LeaveKeeps(w1: World, w2: World, q: Path, s: Section, threw: bool)
    requires !w1.completedCycle && !w1.unfinished && Chain(w1.states, q) && w1.states[q].Executing?
    requires Ran(Logged(w1, q, s), w2, q, s.kids, threw)
    ensures Left(w1, Leave(w2, q, threw), q, s, threw)
  {
    LeaveEffect(w2, q, threw);
    var w3 := Leave(w2, q, threw);
    assert Parent(q) != q && !(q <= Parent(q));
    assert SameStrictlyBelow(w2.states, w3.states, q);
    TidyKidsFrame(w2.states, w3.states, q, s.kids);
    assert Monotone(w2.states, w3.states);
    TodoKidsMonotone(w2.states, w3.states, q, s.kids);
    forall r: Path | !(q <= r) && r != Parent(q)
      ensures SameAt(w1.states, w3.states, r)
    {
      assert SameAt(w1.states, w2.states, r);
    }
  }

  // ---- the body of a tracker ----

  /** The section at `i` was skipped: ready for the next one, with the same sections complete. */
  lemma SkipKeeps(w: World, p: Path, kids: seq<Section>, i: nat)
    requires Ready(w, p, kids, i) && i < |kids| && Distinct(kids)
    requires w.completedCycle || Done(w.states, p + [kids[i].id])
    ensures var w1 := Acquire(w, kids[i].id);
            && Ready(w1, p, kids, i + 1) && Ran(w, w1, p, kids, false)
            && w1.entered == w.entered && w1.completedCycle == w.completedCycle
            && !(p + [kids[i].id] in w1.states && IsOpen(w1.states[p + [kids[i].id]]))
  {
    var q := p + [kids[i].id];
    AcquireSkips(w, p, kids[i].id);
    var w1 := Acquire(w, kids[i].id);
    assert Tidy(w.states, q, kids[i]);
    if q !in w.states {
      KnownKeepsTidy(w.states, p, kids, i);
    }
  }

  /** A section that becomes known, and no more, leaves everything tidy. */
  lemma KnownKeepsTidy(st: States, p: Path, kids: seq<Section>, i: nat)
    requires TidyKids(st, p, kids) && i < |kids| && Distinct(kids)
    requires p + [kids[i].id] !in st
    ensures TidyKids(st[p + [kids[i].id] := NotStarted], p, kids)
  {
    var q := p + [kids[i].id];
    var st' := st[q := NotStarted];
    forall j | 0 <= j < |kids|
      ensures Tidy(st', p + [kids[j].id], kids[j])
    {
      assert Tidy(st, p + [kids[j].id], kids[j]);
      if j != i {
        OtherSubtree(st, st', p, kids[i].id, kids[j].id);
        TidyFrame(st, st', p + [kids[j].id], kids[j]);
      }
    }
    forall j, k | 0 <= j < k < |kids| && Started(st', p + [kids[k].id])
      ensures Done(st', p + [kids[j].id])
    {
      assert Started(st, p + [kids[k].id]);
      assert Done(st, p + [kids[j].id]);
    }
  }

  /** The section at `i` is opened: ready to run its body. */
  lemma OpenKeeps(w: World, p: Path, kids: seq<Section>, i: nat)
    requires Ready(w, p, kids, i) && i < |kids|
    requires !w.completedCycle && !Done(w.states, p + [kids[i].id])
    ensures var q, w1 := p + [kids[i].id], Acquire(w, kids[i].id);
            && Parent(q) == p && q in w1.states && w1.states[q].Executing? && !w1.completedCycle
            && Ready(Logged(w1, q, kids[i]), q, kids[i].kids, 0)
            && Monotone(w.states, w1.states)
  {
    var q := p + [kids[i].id];
    AcquireOpens(w, p, kids[i].id);
    var w1 := Acquire(w, kids[i].id);
    assert Parent(q) == p;
    assert !(q <= p);
    assert Tidy(w.states, q, kids[i]);
    assert SameStrictlyBelow(w.states, w1.states, q);
    TidyKidsFrame(w.states, w1.states, q, kids[i].kids);
    if !Started(w.states, q) {
      VirginIsTidy(w.states, q, kids[i].kids);
    }
  }

  lemma VirginIsTidy(st: States, p: Path, kids: seq<Section>)
    requires Virgin(st, p)
    ensures TidyKids(st, p, kids)
  {
    forall i | 0 <= i < |kids|
      ensures p + [kids[i].id] !in st && Virgin(st, p + [kids[i].id])
    {
      assert p <= p + [kids[i].id];
      forall q | q in st
        ensures !(p + [kids[i].id] <= q)
      {
        assert q == p || !(p <= q);
      }
    }
  }

  /** Back from the section at `i`. */
  lemma ReturnKeeps(w: World, w3: World, p: Path, kids: seq<Section>, i: nat, threw: bool)
    requires Ready(w, p, kids, i) && i < |kids| && Distinct(kids)
    requires !w.completedCycle && !Done(w.states, p + [kids[i].id])
    requires p + [kids[i].id] != [] && Left(Acquire(w, kids[i].id), w3, p + [kids[i].id], kids[i], threw)
    ensures Ran(w, w3, p, kids, threw)
    ensures !threw ==> Ready(w3, p, kids, i + 1)
  {
    var q, w1 := p + [kids[i].id], Acquire(w, kids[i].id);
    OpenKeeps(w, p, kids, i);
    AcquireOpens(w, p, kids[i].id);
    assert !(q <= Parent(p)) && Parent(p) != p;
    assert SameAt(w1.states, w3.states, Parent(p));
    forall r: Path | !(p <= r)
      ensures SameAt(w.states, w3.states, r)
    {
      assert !(q <= r);
      assert SameAt(w1.states, w3.states, r);
    }
    ReturnTidy(w, w3, p, kids, i, threw);
    TodoMonotone(w.states, w1.states, q, kids[i]);
    TodoKidsDrop(w.states, w3.states, p, kids, i);
  }

  lemma ReturnTidy(w: World, w3: World, p: Path, kids: seq<Section>, i: nat, threw: bool)
    requires Ready(w, p, kids, i) && i < |kids| && Distinct(kids)
    requires !w.completedCycle && !Done(w.states, p + [kids[i].id])
    requires p + [kids[i].id] != [] && Left(Acquire(w, kids[i].id), w3, p + [kids[i].id], kids[i], threw)
    ensures TidyKids(w3.states, p, kids)
    ensures forall j | i < j < |kids| :: !Started(w3.states, p + [kids[j].id])
  {
    var q, w1 := p + [kids[i].id], Acquire(w, kids[i].id);
    AcquireOpens(w, p, kids[i].id);
    assert Parent(q) == p;
    forall j | 0 <= j < |kids| && j != i
      ensures Tidy(w3.states, p + [kids[j].id], kids[j]) && SameAt(w.states, w3.states, p + [kids[j].id])
    {
      var r := p + [kids[j].id];
      assert r != q by { assert r[|p|] != q[|p|]; }
      forall x: Path | r <= x
        ensures SameAt(w.states, w3.states, x)
      {
        SiblingsApart(p, kids[j].id, kids[i].id, x);
        assert SameAt(w1.states, w3.states, x);
      }
      assert Tidy(w.states, r, kids[j]);
      TidyFrame(w.states, w3.states, r, kids[j]);
    }
    forall j | i < j < |kids|
      ensures !Started(w3.states, p + [kids[j].id])
    {
      assert !Started(w.states, p + [kids[j].id]);
    }
    forall j, k | 0 <= j < k < |kids| && Started(w3.states, p + [kids[k].id])
      ensures Done(w3.states, p + [kids[j].id])
    {
      assert k <= i;
      assert Done(w.states, p + [kids[j].id]);
    }
  }

  lemma RanThenRan(w: World, w1: World, w2: World, p: Path, kids: seq<Section>, threw: bool)
    requires Ran(w, w1, p, kids, false) && Ran(w1, w2, p, kids, threw)
    requires w1.completedCycle ||
      (w1.states == w.states && w1.entered == w.entered && w1.completedCycle == w.completedCycle)
    ensures Ran(w, w2, p, kids, threw)
  {
    forall r: Path | !(p <= r)
      ensures SameAt(w.states, w2.states, r)
    {
      assert SameAt(w.states, w1.states, r) && SameAt(w1.states, w2.states, r);
    }
    TodoKidsMonotone(w1.states, w2.states, p, kids);
  }

  /** Running a body keeps the trackers tidy, never undoes a completion, enters at most one leaf, which then
      is complete for good, and completes at least one more section if it opens any. */
  lemma {:induction false} RunKidsLaw(w: World, p: Path, kids: seq<Section>, i: nat, o: Oracle, c: nat)
    requires WellFormedKids(kids) && i <= |kids| && Ready(w, p, kids, i)
    ensures var r := RunKids(w, p, kids, i, o, c); Ran(w, r.0, p, kids, r.1)
    decreases kids, |kids| - i, 1
  {
    hide Ready, Ran, Left, Acquire, Leave, Logged;
    if o(c, p, i) || i == |kids| {
      RanNothing(w, p, kids, i, o(c, p, i));
    } else {
      var q := p + [kids[i].id];
      var w1 := Acquire(w, kids[i].id);
      ReadyFacts(w, p, kids, i);
      if w.completedCycle || Done(w.states, q) {
        SkipKeeps(w, p, kids, i);
        RunKidsLaw(w1, p, kids, i + 1, o, c);
        var r := RunKids(w1, p, kids, i + 1, o, c);
        SkipThenRan(w, p, kids, i, r.0, r.1);
      } else {
        OpenKeeps(w, p, kids, i);
        assert WellFormed(kids[i]);
        var (w2, threw) := RunSection(w1, q, kids[i], o, c);
        RunKidsLaw(Logged(w1, q, kids[i]), q, kids[i].kids, 0, o, c);
        SectionIsKids(w1, q, kids[i], o, c);
        ReadyFacts(Logged(w1, q, kids[i]), q, kids[i].kids, 0);
        LoggedFacts(w1, q, kids[i]);
        LeaveKeeps(w1, w2, q, kids[i], threw);
        var w3 := Leave(w2, q, threw);
        ReturnKeeps(w, w3, p, kids, i, threw);
        LeaveIs(w2, q, threw);
        if !threw {
          RunKidsLaw(w3, p, kids, i + 1, o, c);
          var r := RunKids(w3, p, kids, i + 1, o, c);
          LeftFacts(w1, w3, q, kids[i], threw);
          RanThenRan(w, w3, r.0, p, kids, r.1);
        }
      }
    }
  }

  lemma RanNothing(w: World, p: Path, kids: seq<Section>, i: nat, threw: bool)
    requires Ready(w, p, kids, i)
    ensures Ran(w, w, p, kids, threw)
  {
  }

  lemma SkipThenRan(w: World, p: Path, kids: seq<Section>, i: nat, w2: World, threw: bool)
    requires Ready(w, p, kids, i) && i < |kids| && Distinct(kids)
    requires w.completedCycle || Done(w.states, p + [kids[i].id])
    requires Ran(Acquire(w, kids[i].id), w2, p, kids, threw)
    ensures Ran(w, w2, p, kids, threw)
  {
    SkipKeeps(w, p, kids, i);
    AcquireSkips(w, p, kids[i].id);
    RanThenRan(w, Acquire(w, kids[i].id), w2, p, kids, threw);
  }

  lemma SectionIsKids(w: World, q: Path, s: Section, o: Oracle, c: nat)
    ensures RunSection(w, q, s, o, c) == RunKids(Logged(w, q, s), q, s.kids, 0, o, c)
  {
  }

  lemma ReadyFacts(w: World, p: Path, kids: seq<Section>, i: nat)
    requires Ready(w, p, kids, i)
    ensures Chain(w.states, p) && !w.unfinished && w.current == p
  {
  }

  lemma LoggedFacts(w: World, q: Path, s: Section)
    ensures Logged(w, q, s).states == w.states && Logged(w, q, s).unfinished == w.unfinished
    ensures Logged(w, q, s).completedCycle == w.completedCycle
  {
  }

  lemma LeaveIs(w: World, q: Path, threw: bool)
    requires q != []
    ensures Leave(w, q, threw) == if threw then EndEarly(w, q) else Close(w, q)
  {
  }

  lemma LeftFacts(w: World, w': World, q: Path, s: Section, threw: bool)
    requires q != [] && Left(w, w', q, s, threw)
    ensures w'.completedCycle
  {
  }

  // ---- a whole cycle ----

  /** The state between two cycles. */
  ghost predicate Idle(w: World, test: Section) {
    && !w.illogical && !w.unfinished && [] in w.states
    && (w.states[[]].NotStarted? || w.states[[]].ExecutingChildren?)
    && Tidy(w.states, [test.id], test)
    && ([test.id] in w.states ==> !w.states[[test.id]].Failed?)
  }

  lemma CycleOpens(w: World, test: Section)
    requires Idle(w, test) && !Done(w.states, [test.id])
    ensures var w0 := w.(current := [], completedCycle := false);
            var w1 := Acquire(w0, test.id);
            && w1 == w0.(states := w.states[[test.id] := Executing][[] := ExecutingChildren], current := [test.id])
            && Ready(Logged(w1, [test.id], test), [test.id], test.kids, 0)
            && Monotone(w.states, w1.states)
  {
    var q := [test.id];
    var w0 := w.(current := [], completedCycle := false);
    assert [] + q == q && Parent(q) == [];
    var st1 := w.states[q := Executing];
    assert (if q in w.states then w.states else w.states[q := NotStarted])[q := Executing] == st1;
    assert OpenChild(st1, []) == st1[[] := ExecutingChildren];
    var w1 := Acquire(w0, test.id);
    assert SameStrictlyBelow(w.states, w1.states, q);
    TidyKidsFrame(w.states, w1.states, q, test.kids);
    if !Started(w.states, q) {
      VirginIsTidy(w.states, q, test.kids);
    }
  }

  /** One cycle, whatever throws: the trackers stay tidy and no internal error is raised, a complete tracker
      stays complete, at most one leaf is entered and it is a new one, and strictly more is complete. */
  lemma CycleLaw(w: World, test: Section, o: Oracle, c: nat)
    requires WellFormed(test) && Idle(w, test) && !Done(w.states, [test.id])
    ensures var w' := Cycle(w, test, o, c);
            && Idle(w', test) && Monotone(w.states, w'.states) && EnteredOnce(w, w')
            && Todo(w'.states, [test.id], test) < Todo(w.states, [test.id], test)
  {
    hide Ran, Leave, Logged, Ready, Left, Acquire;
    var q := [test.id];
    var w0 := w.(current := [], completedCycle := false);
    var w1 := Acquire(w0, test.id);
    CycleOpens(w, test);
    RunKidsLaw(Logged(w1, q, test), q, test.kids, 0, o, c);
    SectionIsKids(w1, q, test, o, c);
    ReadyFacts(Logged(w1, q, test), q, test.kids, 0);
    LoggedFacts(w1, q, test);
    var (w2, threw) := RunSection(w1, q, test, o, c);
    CycleCloses(w1, w2, test, threw);
    TodoMonotone(w.states, w1.states, q, test);
  }

  /** The test case is closed even when its body threw. */
  lemma CycleCloses(w1: World, w2: World, test: Section, threw: bool)
    requires !w1.completedCycle && !w1.unfinished && Chain(w1.states, [test.id]) && w1.states[[test.id]].Executing?
    requires Ran(Logged(w1, [test.id], test), w2, [test.id], test.kids, threw)
    ensures var w3 := Close(w2, [test.id]).(unfinished := false);
            && Idle(w3, test) && Monotone(w1.states, w3.states) && EnteredOnce(w1, w3)
            && Todo(w3.states, [test.id], test) < Todo(w1.states, [test.id], test)
  {
    var q := [test.id];
    assert Parent(q) == [];
    RanQuietly(Logged(w1, q, test), w2, q, test.kids, threw);
    LeaveKeeps(w1, w2.(unfinished := false), q, test, false);
    LeaveEffect(w2.(unfinished := false), q, false);
    LeaveEffect(w2, q, false);
    LeaveIs(w2, q, false);
  }

  lemma RanQuietly(w: World, w': World, p: Path, kids: seq<Section>, threw: bool)
    requires Ran(w, w', p, kids, threw)
    ensures Ran(w, w'.(unfinished := false), p, kids, false)
  {
  }
}
