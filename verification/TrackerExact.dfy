/** When nothing throws, the run loop enters the leaves one by one, in source order. */
module TrackerExact {
  import opened SectionTracker
  import opened TrackerLaws

  /** The leaf sections of a tree, in source order. */
  function Leaves(p: Path, s: Section): seq<Path>
    decreases s, 0, 1
  {
    if s.kids == [] then [p] else LeavesFrom(p, s.kids, 0)
  }

  function LeavesFrom(p: Path, kids: seq<Section>, i: nat): seq<Path>
    requires i <= |kids|
    decreases kids, |kids| - i, 0
  {
    if i == |kids| then [] else Leaves(p + [kids[i].id], kids[i]) + LeavesFrom(p, kids, i + 1)
  }

  /** The leaves of a tree below no complete tracker, in source order. */
  function Remaining(st: States, p: Path, s: Section): seq<Path>
    decreases s, 0, 1
  {
    if Done(st, p) then [] else if s.kids == [] then [p] else RemainingFrom(st, p, s.kids, 0)
  }

  function RemainingFrom(st: States, p: Path, kids: seq<Section>, i: nat): seq<Path>
    requires i <= |kids|
    decreases kids, |kids| - i, 0
  {
    if i == |kids| then [] else Remaining(st, p + [kids[i].id], kids[i]) + RemainingFrom(st, p, kids, i + 1)
  }

  ghost predicate SameDone(a: States, b: States, p: Path) { forall q: Path | p <= q :: Done(a, q) == Done(b, q) }

  lemma {:induction false} RemainingFrame(a: States, b: States, p: Path, s: Section)
    requires SameDone(a, b, p)
    ensures Remaining(a, p, s) == Remaining(b, p, s)
    decreases s, 0, 1
  {
    assert p <= p;
    RemainingFromFrame(a, b, p, s.kids, 0);
  }

  lemma {:induction false} RemainingFromFrame(a: States, b: States, p: Path, kids: seq<Section>, i: nat)
    requires i <= |kids| && forall q: Path | p <= q && p != q :: Done(a, q) == Done(b, q)
    ensures RemainingFrom(a, p, kids, i) == RemainingFrom(b, p, kids, i)
    decreases kids, |kids| - i, 0
  {
    if i < |kids| {
      forall q: Path | p + [kids[i].id] <= q
        ensures Done(a, q) == Done(b, q)
      {
        assert p <= q && p != q;
      }
      RemainingFrame(a, b, p + [kids[i].id], kids[i]);
      RemainingFromFrame(a, b, p, kids, i + 1);
    }
  }

  lemma {:induction false} NothingDone(p: Path, s: Section)
    ensures Remaining(map[[] := NotStarted], p, s) == Leaves(p, s)
    decreases s, 0, 1
  {
    NothingDoneFrom(p, s.kids, 0);
  }

  lemma {:induction false} NothingDoneFrom(p: Path, kids: seq<Section>, i: nat)
    requires i <= |kids|
    ensures RemainingFrom(map[[] := NotStarted], p, kids, i) == LeavesFrom(p, kids, i)
    decreases kids, |kids| - i, 0
  {
    if i < |kids| {
      NothingDone(p + [kids[i].id], kids[i]);
      NothingDoneFrom(p, kids, i + 1);
    }
  }

  // ---- every started but incomplete tracker knows all its sections and has one left ----

  predicate AllKnown(st: States, p: Path, kids: seq<Section>) {
    forall i | 0 <= i < |kids| :: p + [kids[i].id] in st
  }

  predicate NoStrays(st: States, p: Path, kids: seq<Section>) {
    forall q | q in st && IsChild(p, q) :: exists i :: 0 <= i < |kids| && q == p + [kids[i].id]
  }

  predicate AllDone(st: States, p: Path, kids: seq<Section>) {
    forall i | 0 <= i < |kids| :: Done(st, p + [kids[i].id])
  }

  ghost predicate Live(st: States, p: Path, s: Section)
    decreases s, 1
  {
    if Started(st, p) && !Complete(st[p]) then
      && st[p].ExecutingChildren?
      && AllKnown(st, p, s.kids) && !AllDone(st, p, s.kids)
      && NoStrays(st, p, s.kids) && LiveKids(st, p, s.kids)
    else true
  }

  ghost predicate LiveKids(st: States, p: Path, kids: seq<Section>)
    decreases kids, 0
  {
    forall i | 0 <= i < |kids| :: Live(st, p + [kids[i].id], kids[i])
  }

  lemma {:induction false} LiveFrame(a: States, b: States, p: Path, s: Section)
    requires SameBelow(a, b, p)
    ensures Live(a, p, s) == Live(b, p, s)
    decreases s, 1
  {
    assert SameAt(a, b, p);
    LiveKidsFrame(a, b, p, s.kids);
    KnownFrame(a, b, p, s.kids);
  }

  lemma {:induction false} LiveKidsFrame(a: States, b: States, p: Path, kids: seq<Section>)
    requires SameStrictlyBelow(a, b, p)
    ensures LiveKids(a, p, kids) == LiveKids(b, p, kids)
    decreases kids, 0
  {
    forall i | 0 <= i < |kids|
      ensures Live(a, p + [kids[i].id], kids[i]) == Live(b, p + [kids[i].id], kids[i])
    {
      BelowKid(a, b, p, kids[i].id);
      LiveFrame(a, b, p + [kids[i].id], kids[i]);
    }
  }

  lemma KnownFrame(a: States, b: States, p: Path, kids: seq<Section>)
    requires SameStrictlyBelow(a, b, p)
    ensures AllKnown(a, p, kids) == AllKnown(b, p, kids)
    ensures AllDone(a, p, kids) == AllDone(b, p, kids)
    ensures NoStrays(a, p, kids) == NoStrays(b, p, kids)
  {
    forall i | 0 <= i < |kids|
      ensures SameAt(a, b, p + [kids[i].id])
    {
      BelowKid(a, b, p, kids[i].id);
    }
    forall q: Path | IsChild(p, q)
      ensures SameAt(a, b, q)
    {
      assert p <= q;
    }
  }

  /** An incomplete tracker has a leaf left. */
  lemma {:induction false} LiveHasLeaf(st: States, p: Path, s: Section)
    requires !Done(st, p) && Live(st, p, s) && Tidy(st, p, s)
    ensures Remaining(st, p, s) != []
    decreases s, 1
  {
    if s.kids != [] {
      if Started(st, p) {
        var i :| 0 <= i < |s.kids| && !Done(st, p + [s.kids[i].id]);
        LiveHasLeafFrom(st, p, s.kids, 0, i);
      } else {
        VirginIsTidy(st, p, s.kids);
        VirginUnknown(st, p, s.kids);
        LiveHasLeafFrom(st, p, s.kids, 0, 0);
      }
    }
  }

  lemma VirginUnknown(st: States, p: Path, kids: seq<Section>)
    requires Virgin(st, p)
    ensures forall i | 0 <= i < |kids| :: p + [kids[i].id] !in st
    ensures LiveKids(st, p, kids)
  {
    forall i | 0 <= i < |kids|
      ensures p + [kids[i].id] !in st
    {
      assert p <= p + [kids[i].id];
    }
  }

  lemma {:induction false} LiveHasLeafFrom(st: States, p: Path, kids: seq<Section>, i: nat, j: nat)
    requires i <= j < |kids| && !Done(st, p + [kids[j].id])
    requires LiveKids(st, p, kids) && TidyKids(st, p, kids)
    ensures RemainingFrom(st, p, kids, i) != []
    decreases kids, 0, |kids| - i
  {
    if i == j {
      assert Live(st, p + [kids[i].id], kids[i]) && Tidy(st, p + [kids[i].id], kids[i]);
      LiveHasLeaf(st, p + [kids[i].id], kids[i]);
    } else {
      LiveHasLeafFrom(st, p, kids, i + 1, j);
    }
  }

  // ---- the rest of a body once the cycle's leaf is done ----

  /** Sections met after the cycle's leaf only become known. */
  function AddKnown(st: States, p: Path, kids: seq<Section>, i: nat): States
    requires i <= |kids|
    decreases |kids| - i
  {
    if i == |kids| then st
    else AddKnown(if p + [kids[i].id] in st then st else st[p + [kids[i].id] := NotStarted], p, kids, i + 1)
  }

  ghost predicate Quiet(o: Oracle) { forall c: nat, p: Path, i: nat :: !o(c, p, i) }

  lemma {:induction false} LateRun(w: World, p: Path, kids: seq<Section>, i: nat, o: Oracle, c: nat)
    requires Quiet(o) && Distinct(kids) && i <= |kids| && Ready(w, p, kids, i) && w.completedCycle
    ensures RunKids(w, p, kids, i, o, c) == (w.(states := AddKnown(w.states, p, kids, i)), false)
    decreases |kids| - i
  {
    hide Ready, Ran;
    if i < |kids| {
      ReadyFacts(w, p, kids, i);
      SkipKeeps(w, p, kids, i);
      AcquireAtEnd(w, p, kids, i);
      LateRun(Acquire(w, kids[i].id), p, kids, i + 1, o, c);
    }
  }

  lemma AcquireAtEnd(w: World, p: Path, kids: seq<Section>, i: nat)
    requires i < |kids| && Ready(w, p, kids, i) && w.completedCycle
    ensures var q := p + [kids[i].id];
            Acquire(w, kids[i].id) == w.(states := if q in w.states then w.states else w.states[q := NotStarted])
  {
    AcquireSkips(w, p, kids[i].id);
  }

  predicate OnlyAdds(st: States, st': States, p: Path, kids: seq<Section>, i: nat) {
    && (forall q | q in st :: q in st' && st'[q] == st[q])
    && (forall q | q in st' && q !in st :: st'[q].NotStarted? && exists j :: i <= j < |kids| && q == p + [kids[j].id])
  }

  lemma {:induction false} AddKnownFacts(st: States, p: Path, kids: seq<Section>, i: nat)
    requires i <= |kids|
    ensures OnlyAdds(st, AddKnown(st, p, kids, i), p, kids, i)
    ensures forall j | i <= j < |kids| :: p + [kids[j].id] in AddKnown(st, p, kids, i)
    decreases |kids| - i
  {
    if i < |kids| {
      var q := p + [kids[i].id];
      var st1 := if q in st then st else st[q := NotStarted];
      AddKnownFacts(st1, p, kids, i + 1);
      var st' := AddKnown(st1, p, kids, i + 1);
      assert q in st1;
      forall r | r in st' && r !in st
        ensures st'[r].NotStarted? && exists j :: i <= j < |kids| && r == p + [kids[j].id]
      {
        if r == q { assert r == p + [kids[i].id]; }
      }
    }
  }

  /** So the same sections are complete and started, and what was live stays so. */
  lemma AddsKeep(st: States, st': States, p: Path, kids: seq<Section>, i: nat)
    requires OnlyAdds(st, st', p, kids, i) && Distinct(kids) && i <= |kids|
    requires forall j | i <= j < |kids| :: !Started(st, p + [kids[j].id])
    requires LiveKids(st, p, kids) && NoStrays(st, p, kids)
    ensures forall q: Path :: Done(st, q) == Done(st', q)
    ensures LiveKids(st', p, kids) && NoStrays(st', p, kids)
  {
    forall j | 0 <= j < |kids|
      ensures Live(st', p + [kids[j].id], kids[j])
    {
      var r := p + [kids[j].id];
      assert Live(st, r, kids[j]);
      if j < i {
        forall q: Path | r <= q
          ensures SameAt(st, st', q)
        {
          forall k | i <= k < |kids|
            ensures q != p + [kids[k].id]
          {
            SiblingsApart(p, kids[j].id, kids[k].id, q);
          }
        }
        LiveFrame(st, st', r, kids[j]);
      }
    }
  }

  // ---- closing ----

  /** Closing a tracker whose body ran to its end without throwing. */
  lemma ExactClose(w: World, q: Path, s: Section)
    requires w.current == q && Chain(w.states, q) && s.kids != []
    requires w.states[q].ExecutingChildren? && AllKnown(w.states, q, s.kids) && NoStrays(w.states, q, s.kids)
    requires LiveKids(w.states, q, s.kids) && TidyKids(w.states, q, s.kids)
    ensures var w' := Close(w, q);
            && Remaining(w'.states, q, s) == RemainingFrom(w.states, q, s.kids, 0)
            && Live(w'.states, q, s) && w'.entered == w.entered
  {
    LeaveEffect(w, q, false);
    LeaveIs(w, q, false);
    var w' := Close(w, q);
    assert SameStrictlyBelow(w.states, w'.states, q);
    LiveKidsFrame(w.states, w'.states, q, s.kids);
    KnownFrame(w.states, w'.states, q, s.kids);
    forall x: Path | q <= x && q != x
      ensures Done(w.states, x) == Done(w'.states, x)
    {
      assert SameAt(w.states, w'.states, x);
    }
    RemainingFromFrame(w.states, w'.states, q, s.kids, 0);
    if AllDone(w.states, q, s.kids) {
      ChildrenAllDone(w.states, q, s.kids);
      NoneRemaining(w.states, q, s.kids, 0);
    } else {
      var i :| 0 <= i < |s.kids| && !Done(w.states, q + [s.kids[i].id]);
      assert IsChild(q, q + [s.kids[i].id]) && q + [s.kids[i].id] in w.states;
      assert !ChildrenComplete(w.states, q);
    }
  }

  lemma ChildrenAllDone(st: States, p: Path, kids: seq<Section>)
    requires AllDone(st, p, kids) && NoStrays(st, p, kids)
    ensures ChildrenComplete(st, p)
  {
    forall q | q in st.Keys && IsChild(p, q)
      ensures Complete(st[q])
    {
      var i :| 0 <= i < |kids| && q == p + [kids[i].id];
      assert Done(st, p + [kids[i].id]);
    }
  }

  lemma {:induction false} NoneRemaining(st: States, p: Path, kids: seq<Section>, i: nat)
    requires i <= |kids| && forall j | i <= j < |kids| :: Done(st, p + [kids[j].id])
    ensures RemainingFrom(st, p, kids, i) == []
    decreases |kids| - i
  {
    if i < |kids| {
      NoneRemaining(st, p, kids, i + 1);
    }
  }

  // ---- the body of a tracker, exactly ----

  /** Exactly the first remaining leaf was entered, and the others remain. */
  ghost predicate OneLeaf(w: World, w': World, p: Path, kids: seq<Section>, i: nat)
    requires i <= |kids|
  {
    var r := RemainingFrom(w.states, p, kids, i);
    && r != [] && w'.completedCycle && w'.entered == w.entered + [r[0]]
    && RemainingFrom(w'.states, p, kids, i) == r[1..]
    && AllKnown(w'.states, p, kids) && LiveKids(w'.states, p, kids) && NoStrays(w'.states, p, kids)
    && p in w'.states && w'.states[p].ExecutingChildren?
  }

  /** The same of a whole section, once it is left. */
  ghost predicate SectionLeaf(w: World, w': World, q: Path, s: Section) {
    var r := Remaining(w.states, q, s);
    && r != [] && w'.entered == w.entered + [r[0]]
    && Remaining(w'.states, q, s) == r[1..] && Live(w'.states, q, s)
  }

  lemma LeaveExactly(w1: World, w2: World, q: Path, s: Section)
    requires !w1.completedCycle && Chain(w1.states, q) && w1.states[q].Executing?
    requires Ran(Logged(w1, q, s), w2, q, s.kids, false)
    requires s.kids != [] ==> OneLeaf(w1, w2, q, s.kids, 0)
    ensures SectionLeaf(w1, Close(w2, q), q, s)
    ensures Close(w2, q).states[Parent(q)].ExecutingChildren?
  {
    LeaveEffect(w2, q, false);
    LeaveIs(w2, q, false);
    assert !(q <= Parent(q)) && Parent(q) != q;
    assert SameAt(w1.states, w2.states, Parent(q));
    if s.kids != [] {
      ExactClose(w2, q, s);
    }
  }

  /** What opening the section at `i` leaves as it was. */
  lemma OpenExactly(w: World, p: Path, kids: seq<Section>, i: nat)
    requires Ready(w, p, kids, i) && i < |kids| && !w.completedCycle && !Done(w.states, p + [kids[i].id])
    requires LiveKids(w.states, p, kids)
    ensures var q, w1 := p + [kids[i].id], Acquire(w, kids[i].id);
            && LiveKids(w1.states, q, kids[i].kids) && NoStrays(w1.states, q, kids[i].kids)
            && Remaining(w1.states, q, kids[i]) == Remaining(w.states, q, kids[i]) != []
            && (kids[i].kids != [] ==> RemainingFrom(w1.states, q, kids[i].kids, 0) == Remaining(w.states, q, kids[i]))
            && w1.entered == w.entered
  {
    var q, w1 := p + [kids[i].id], Acquire(w, kids[i].id);
    AcquireOpens(w, p, kids[i].id);
    assert !(q <= p);
    assert Live(w.states, q, kids[i]) && Tidy(w.states, q, kids[i]);
    LiveHasLeaf(w.states, q, kids[i]);
    assert SameStrictlyBelow(w.states, w1.states, q);
    LiveKidsFrame(w.states, w1.states, q, kids[i].kids);
    KnownFrame(w.states, w1.states, q, kids[i].kids);
    if !Started(w.states, q) {
      VirginUnknown(w.states, q, kids[i].kids);
      VirginNoStrays(w.states, q, kids[i].kids);
    }
    forall x: Path | q <= x
      ensures Done(w.states, x) == Done(w1.states, x)
    {
      if x != q { assert SameAt(w.states, w1.states, x); }
    }
    RemainingFrame(w.states, w1.states, q, kids[i]);
  }

  lemma VirginNoStrays(st: States, p: Path, kids: seq<Section>)
    requires Virgin(st, p)
    ensures NoStrays(st, p, kids)
  {
    forall q | q in st
      ensures !IsChild(p, q)
    {
      assert q == p || !(p <= q);
    }
  }

  /** Back from the section at `i` with its leaf entered, the rest of the body only makes sections known. */
  lemma ReturnExactly(w: World, w3: World, p: Path, kids: seq<Section>, i: nat, o: Oracle, c: nat)
    requires WellFormedKids(kids) && Quiet(o) && i < |kids| && Ready(w, p, kids, i)
    requires !w.completedCycle && !Done(w.states, p + [kids[i].id])
    requires LiveKids(w.states, p, kids) && NoStrays(w.states, p, kids)
    requires p + [kids[i].id] != [] && Left(Acquire(w, kids[i].id), w3, p + [kids[i].id], kids[i], false)
    requires SectionLeaf(Acquire(w, kids[i].id), w3, p + [kids[i].id], kids[i])
    requires p in w3.states && w3.states[p].ExecutingChildren?
    ensures var r := RunKids(w3, p, kids, i + 1, o, c); !r.1 && OneLeaf(w, r.0, p, kids, i)
  {
    hide Left, Live, NoStrays, Acquire, Ready, Monotone, OnlyAdds;
    var q := p + [kids[i].id];
    ReturnKeeps(w, w3, p, kids, i, false);
    OpenExactly(w, p, kids, i);
    LeftStarted(Acquire(w, kids[i].id), w3, q, kids[i]);
    LateRun(w3, p, kids, i + 1, o, c);
    var st' := AddKnown(w3.states, p, kids, i + 1);
    AddKnownFacts(w3.states, p, kids, i + 1);
    ReturnLive(w, w3, p, kids, i);
    AddsKeep(w3.states, st', p, kids, i + 1);
    RemainingFromFrame(w3.states, st', p, kids, i);
    assert AllKnown(st', p, kids) by { KnownUpTo(w, w3, st', p, kids, i); }
  }

  lemma LeftStarted(w: World, w': World, q: Path, s: Section)
    requires q != [] && Left(w, w', q, s, false)
    ensures w'.completedCycle && Started(w'.states, q)
  {
  }

  lemma KnownUpTo(w: World, w3: World, st': States, p: Path, kids: seq<Section>, i: nat)
    requires i < |kids| && Ready(w, p, kids, i) && !w.completedCycle
    requires Monotone(w.states, w3.states) && Started(w3.states, p + [kids[i].id])
    requires OnlyAdds(w3.states, st', p, kids, i + 1)
    requires forall j | i + 1 <= j < |kids| :: p + [kids[j].id] in st'
    ensures AllKnown(st', p, kids)
  {
    forall j | 0 <= j < |kids|
      ensures p + [kids[j].id] in st'
    {
      if j < i { assert Done(w.states, p + [kids[j].id]) && Done(w3.states, p + [kids[j].id]); }
    }
  }

  lemma ReturnLive(w: World, w3: World, p: Path, kids: seq<Section>, i: nat)
    requires WellFormedKids(kids) && i < |kids| && Ready(w, p, kids, i)
    requires !w.completedCycle && !Done(w.states, p + [kids[i].id])
    requires LiveKids(w.states, p, kids) && NoStrays(w.states, p, kids)
    requires p + [kids[i].id] != [] && Left(Acquire(w, kids[i].id), w3, p + [kids[i].id], kids[i], false)
    requires SectionLeaf(Acquire(w, kids[i].id), w3, p + [kids[i].id], kids[i])
    ensures LiveKids(w3.states, p, kids) && NoStrays(w3.states, p, kids)
    ensures RemainingFrom(w.states, p, kids, i) ==
      Remaining(w.states, p + [kids[i].id], kids[i]) + RemainingFrom(w3.states, p, kids, i + 1)
  {
    var q := p + [kids[i].id];
    var w1 := Acquire(w, kids[i].id);
    AcquireOpens(w, p, kids[i].id);
    assert Parent(q) == p;
    forall r: Path | !(q <= r) && r != p
      ensures SameAt(w.states, w3.states, r)
    {
      assert SameAt(w1.states, w3.states, r);
    }
    SiblingsLive(w.states, w3.states, p, kids, i);
  }

  lemma SiblingsLive(st: States, st3: States, p: Path, kids: seq<Section>, i: nat)
    requires Distinct(kids) && i < |kids| && LiveKids(st, p, kids) && NoStrays(st, p, kids)
    requires forall r: Path | !(p + [kids[i].id] <= r) && r != p :: SameAt(st, st3, r)
    requires Live(st3, p + [kids[i].id], kids[i])
    ensures LiveKids(st3, p, kids) && NoStrays(st3, p, kids)
    ensures RemainingFrom(st3, p, kids, i + 1) == RemainingFrom(st, p, kids, i + 1)
  {
    hide Live, NoStrays, SameAt;
    forall j | 0 <= j < |kids| && j != i
      ensures SameBelow(st, st3, p + [kids[j].id])
    {
      forall x: Path | p + [kids[j].id] <= x
        ensures SameAt(st, st3, x)
      {
        SiblingsApart(p, kids[j].id, kids[i].id, x);
      }
    }
    forall j | 0 <= j < |kids|
      ensures Live(st3, p + [kids[j].id], kids[j])
    {
      assert Live(st, p + [kids[j].id], kids[j]);
      if j != i { LiveFrame(st, st3, p + [kids[j].id], kids[j]); }
    }
    StraysSame(st, st3, p, kids, i);
    RemainingSiblings(st, st3, p, kids, i, i + 1);
  }

  lemma StraysSame(st: States, st3: States, p: Path, kids: seq<Section>, i: nat)
    requires i < |kids| && NoStrays(st, p, kids)
    requires forall r: Path | !(p + [kids[i].id] <= r) && r != p :: SameAt(st, st3, r)
    ensures NoStrays(st3, p, kids)
  {
    var q := p + [kids[i].id];
    forall x | x in st3 && IsChild(p, x)
      ensures exists j :: 0 <= j < |kids| && x == p + [kids[j].id]
    {
      if q <= x {
        assert x == q;
      } else {
        assert SameAt(st, st3, x);
      }
    }
  }

  lemma {:induction false} RemainingSiblings(st: States, st3: States, p: Path, kids: seq<Section>, i: nat, j: nat)
    requires i < j <= |kids| && forall k | 0 <= k < |kids| && k != i :: SameBelow(st, st3, p + [kids[k].id])
    ensures RemainingFrom(st3, p, kids, j) == RemainingFrom(st, p, kids, j)
    decreases |kids| - j
  {
    if j < |kids| {
      var r := p + [kids[j].id];
      assert SameBelow(st, st3, r);
      forall x: Path | r <= x
        ensures Done(st, x) == Done(st3, x)
      {
        assert SameAt(st, st3, x);
      }
      RemainingFrame(st, st3, r, kids[j]);
      RemainingSiblings(st, st3, p, kids, i, j + 1);
    }
  }

  /** Running a body when nothing throws: if any leaf remains, exactly the first one is entered. */
  lemma {:induction false} ExactKids(w: World, p: Path, kids: seq<Section>, i: nat, o: Oracle, c: nat)
    requires WellFormedKids(kids) && Quiet(o) && i <= |kids| && Ready(w, p, kids, i) && !w.completedCycle
    requires LiveKids(w.states, p, kids) && NoStrays(w.states, p, kids)
    ensures var r := RunKids(w, p, kids, i, o, c);
            && !r.1
            && (if RemainingFrom(w.states, p, kids, i) == [] then r.0 == w && AllDone(w.states, p, kids)
                else OneLeaf(w, r.0, p, kids, i))
    decreases kids, |kids| - i, 1
  {
    hide Ready, Ran, Left, Acquire, Leave, Logged, OneLeaf, SectionLeaf, Live, LiveKids, NoStrays, AllDone;
    if i == |kids| {
      ReadyDone(w, p, kids);
    } else {
      var q := p + [kids[i].id];
      ReadyFacts(w, p, kids, i);
      if Done(w.states, q) {
        SkipDone(w, p, kids, i);
        ExactKids(w, p, kids, i + 1, o, c);
        SkipExactly(w, p, kids, i, o, c);
      } else {
        var w1 := Acquire(w, kids[i].id);
        OpenKeeps(w, p, kids, i);
        OpenExactly(w, p, kids, i);
        var l1 := Logged(w1, q, kids[i]);
        LoggedFacts(w1, q, kids[i]);
        ReadyFacts(l1, q, kids[i].kids, 0);
        assert WellFormed(kids[i]);
        ExactKids(l1, q, kids[i].kids, 0, o, c);
        RunKidsLaw(l1, q, kids[i].kids, 0, o, c);
        SectionIsKids(w1, q, kids[i], o, c);
        var (w2, threw) := RunSection(w1, q, kids[i], o, c);
        LoggedOneLeaf(w1, w2, q, kids[i]);
        LeaveKeeps(w1, w2, q, kids[i], false);
        LeaveIs(w2, q, false);
        LeaveExactly(w1, w2, q, kids[i]);
        LeftParent(w1, Close(w2, q), q, kids[i]);
        ReturnExactly(w, Close(w2, q), p, kids, i, o, c);
        RemainingHead(w.states, p, kids, i);
      }
    }
  }

  lemma RemainingHead(st: States, p: Path, kids: seq<Section>, i: nat)
    requires i < |kids| && Remaining(st, p + [kids[i].id], kids[i]) != []
    ensures RemainingFrom(st, p, kids, i) != []
  {
  }

  lemma LeftParent(w: World, w': World, q: Path, s: Section)
    requires q != [] && Left(w, w', q, s, false)
    ensures Parent(q) in w'.states
  {
  }

  lemma ReadyDone(w: World, p: Path, kids: seq<Section>)
    requires Ready(w, p, kids, |kids|) && !w.completedCycle
    ensures AllDone(w.states, p, kids)
  {
  }

  lemma LoggedOneLeaf(w1: World, w2: World, q: Path, s: Section)
    requires s.kids != [] ==> OneLeaf(Logged(w1, q, s), w2, q, s.kids, 0)
    ensures s.kids != [] ==> OneLeaf(w1, w2, q, s.kids, 0)
  {
  }

  lemma SkipDone(w: World, p: Path, kids: seq<Section>, i: nat)
    requires Ready(w, p, kids, i) && i < |kids| && Distinct(kids)
    requires !w.completedCycle && Done(w.states, p + [kids[i].id])
    ensures Acquire(w, kids[i].id) == w && Ready(w, p, kids, i + 1)
  {
    AcquireSkips(w, p, kids[i].id);
    SkipKeeps(w, p, kids, i);
  }

  lemma SkipExactly(w: World, p: Path, kids: seq<Section>, i: nat, o: Oracle, c: nat)
    requires WellFormedKids(kids) && Quiet(o) && i < |kids| && Ready(w, p, kids, i) && !w.completedCycle
    requires Done(w.states, p + [kids[i].id]) && Acquire(w, kids[i].id) == w && Ready(w, p, kids, i + 1)
    ensures RunKids(w, p, kids, i, o, c) == RunKids(w, p, kids, i + 1, o, c)
    ensures RemainingFrom(w.states, p, kids, i) == RemainingFrom(w.states, p, kids, i + 1)
    ensures var r := RunKids(w, p, kids, i, o, c); OneLeaf(w, r.0, p, kids, i + 1) ==> OneLeaf(w, r.0, p, kids, i)
  {
    RunKidsLaw(w, p, kids, i + 1, o, c);
    var r := RunKids(w, p, kids, i + 1, o, c);
    assert Done(r.0.states, p + [kids[i].id]);
  }

  /** One cycle when nothing throws: it enters the first remaining leaf and no other, and the test case is
      complete exactly when none remains. */
  lemma ExactCycle(w: World, test: Section, o: Oracle, c: nat)
    requires WellFormed(test) && Quiet(o) && Idle(w, test) && !Done(w.states, [test.id]) &&
      Live(w.states, [test.id], test)
    ensures var w' := Cycle(w, test, o, c);
            && SectionLeaf(w, w', [test.id], test)
            && (Done(w'.states, [test.id]) <==> Remaining(w'.states, [test.id], test) == [])
  {
    hide Ready, Ran, Acquire, Leave, Logged, OneLeaf, Live, LiveKids, NoStrays;
    var q := [test.id];
    var w0 := w.(current := [], completedCycle := false);
    var w1 := Acquire(w0, test.id);
    CycleOpens(w, test);
    CycleOpensLive(w, w1, test);
    var l1 := Logged(w1, q, test);
    LoggedFacts(w1, q, test);
    ReadyFacts(l1, q, test.kids, 0);
    ExactKids(l1, q, test.kids, 0, o, c);
    RunKidsLaw(l1, q, test.kids, 0, o, c);
    SectionIsKids(w1, q, test, o, c);
    var (w2, threw) := RunSection(w1, q, test, o, c);
    LoggedOneLeaf(w1, w2, q, test);
    LeaveExactly(w1, w2, q, test);
    CycleLaw(w, test, o, c);
    var w' := Cycle(w, test, o, c);
    if !Done(w'.states, q) {
      LiveHasLeaf(w'.states, q, test);
    }
  }

  lemma CycleOpensLive(w: World, w1: World, test: Section)
    requires Idle(w, test) && !Done(w.states, [test.id]) && Live(w.states, [test.id], test)
    requires w1.states == w.states[[test.id] := Executing][[] := ExecutingChildren]
    ensures LiveKids(w1.states, [test.id], test.kids) && NoStrays(w1.states, [test.id], test.kids)
    ensures Remaining(w1.states, [test.id], test) == Remaining(w.states, [test.id], test) != []
    ensures test.kids != [] ==>
      RemainingFrom(w1.states, [test.id], test.kids, 0) == Remaining(w.states, [test.id], test)
  {
    var q := [test.id];
    LiveHasLeaf(w.states, q, test);
    assert SameStrictlyBelow(w.states, w1.states, q);
    LiveKidsFrame(w.states, w1.states, q, test.kids);
    KnownFrame(w.states, w1.states, q, test.kids);
    if !Started(w.states, q) {
      VirginUnknown(w.states, q, test.kids);
      VirginNoStrays(w.states, q, test.kids);
    }
    forall x: Path | q <= x
      ensures Done(w.states, x) == Done(w1.states, x)
    {
      if x != q { assert SameAt(w.states, w1.states, x); }
    }
    RemainingFrame(w.states, w1.states, q, test);
  }

  // ---- the leaves of a well-formed tree are all different ----

  predicate AllDifferent(s: seq<Path>) { forall i, j | 0 <= i < j < |s| :: s[i] != s[j] }

  predicate AllBelow(s: seq<Path>, p: Path) { forall i | 0 <= i < |s| :: p <= s[i] }

  lemma {:induction false} LeavesDiffer(p: Path, s: Section)
    requires WellFormed(s)
    ensures AllDifferent(Leaves(p, s)) && AllBelow(Leaves(p, s), p)
    decreases s, 0, 1
  {
    LeavesFromDiffer(p, s.kids, 0);
  }

  lemma {:induction false} LeavesFromDiffer(p: Path, kids: seq<Section>, i: nat)
    requires WellFormedKids(kids) && i <= |kids|
    ensures AllDifferent(LeavesFrom(p, kids, i)) && AllBelow(LeavesFrom(p, kids, i), p)
    ensures forall k, j | 0 <= k < i && 0 <= j < |LeavesFrom(p, kids, i)| ::
      !(p + [kids[k].id] <= LeavesFrom(p, kids, i)[j])
    decreases kids, |kids| - i, 0
  {
    if i < |kids| {
      var q := p + [kids[i].id];
      assert WellFormed(kids[i]);
      LeavesDiffer(q, kids[i]);
      LeavesFromDiffer(p, kids, i + 1);
      var first, rest := Leaves(q, kids[i]), LeavesFrom(p, kids, i + 1);
      var all: seq<Path> := first + rest;
      forall k, j | 0 <= k < i && 0 <= j < |all|
        ensures !(p + [kids[k].id] <= all[j])
      {
        if j < |first| {
          SiblingsApart(p, kids[i].id, kids[k].id, first[j]);
        } else {
          assert all[j] == rest[j - |first|];
        }
      }
      forall j, k | 0 <= j < k < |all|
        ensures all[j] != all[k]
      {
        if j < |first| <= k {
          assert q <= first[j] && !(q <= rest[k - |first|]);
        }
      }
    }
  }
}
