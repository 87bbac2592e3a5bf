/** The compile queue: background compilations, their results, and when a reload library is linked. */
module CompileQueue {
  import opened LinkClosure
  import opened Options

  /** The part of a path behind its last slash. */
  function FileName(p: Path): string {
    if p == "" || p[|p| - 1] == '/' then "" else FileName(p[..|p| - 1]) + [p[|p| - 1]]
  }

  function WithoutSource(us: seq<Unit>, p: Path): seq<Unit> {
    if us == [] then []
    else WithoutSource(us[..|us| - 1], p) + if us[|us| - 1].source == p then [] else [us[|us| - 1]]
  }

  predicate Distinct(us: seq<Unit>) { forall i, j | 0 <= i < j < |us| :: us[i].source != us[j].source }

  predicate Absent(us: seq<Unit>, p: Path) { forall u | u in us :: u.source != p }

  lemma {:induction false} WithoutSourceIs(us: seq<Unit>, p: Path)
    ensures Absent(WithoutSource(us, p), p)
    ensures Distinct(us) ==> Distinct(WithoutSource(us, p))
    ensures forall u :: u in WithoutSource(us, p) <==> u in us && u.source != p
  {
    if us != [] {
      var front, last := us[..|us| - 1], us[|us| - 1];
      WithoutSourceIs(front, p);
      assert us == front + [last];
      if Distinct(us) {
        forall u | u in front ensures u.source != last.source {
          var i :| 0 <= i < |front| && front[i] == u;
          assert us[i] == u && us[|front|] == last;
        }
      }
    }
  }

  // ---- the queue ----

  type Running = map<Path, Unit>

  /** No unit waits twice or while it is compiled, and no more are compiled than there are workers. */
  predicate QueueOk(workers: nat, running: Running, pending: seq<Unit>) {
    && |running| <= workers && Distinct(pending)
    && (forall p | p in running :: running[p].source == p && Absent(pending, p))
  }

  lemma QueueDrop(workers: nat, running: Running, pending: seq<Unit>, p: Path)
    requires QueueOk(workers, running, pending)
    ensures QueueOk(workers, running - {p}, WithoutSource(pending, p)) && Absent(WithoutSource(pending, p), p)
    ensures QueueOk(workers, running - {p}, pending)
  {
    hide WithoutSource;
    WithoutSourceIs(pending, p);
    SmallerMap(running, p);
    forall q | q in running - {p} ensures Absent(WithoutSource(pending, p), q) {
      assert Absent(pending, q);
    }
  }

  lemma QueuePush(workers: nat, running: Running, pending: seq<Unit>, u: Unit)
    requires QueueOk(workers, running, pending) && u.source !in running && Absent(pending, u.source)
    ensures QueueOk(workers, running, pending + [u])
  {
    forall q | q in running ensures Absent(pending + [u], q) {
      assert Absent(pending, q);
    }
  }

  lemma QueueStart(workers: nat, running: Running, pending: seq<Unit>)
    requires QueueOk(workers, running, pending) && pending != [] && |running| < workers
    ensures QueueOk(workers, running[pending[0].source := pending[0]], pending[1..])
    ensures |running[pending[0].source := pending[0]]| == |running| + 1
  {
    var u, rest := pending[0], pending[1..];
    var more := running[u.source := u];
    assert u.source !in running;
    assert more.Keys == running.Keys + {u.source};
    assert |more.Keys| == |more| && |running.Keys| == |running|;
    forall q | q in more ensures Absent(rest, q) {
      if q in running {
        assert Absent(pending, q);
      }
    }
  }

  /** Some of what waited is now compiled; what was compiled goes on, and nothing is lost. */
  predicate Moved(running: Running, pending: seq<Unit>, running': Running, pending': seq<Unit>) {
    && (forall p | p in running :: p in running' && running'[p] == running[p])
    && (forall p | p in running' :: p in running || exists u | u in pending :: u.source == p)
    && (forall u | u in pending' :: u in pending)
    && (forall u | u in pending :: u in pending' || (u.source in running' && running'[u.source] == u))
  }

  lemma MovedNone(running: Running, pending: seq<Unit>)
    ensures Moved(running, pending, running, pending)
  {
  }

  lemma MovedOne(running: Running, pending: seq<Unit>, running': Running, pending': seq<Unit>)
    requires Moved(running, pending, running', pending') && pending' != [] && pending'[0].source !in running'
    ensures Moved(running, pending, running'[pending'[0].source := pending'[0]], pending'[1..])
  {
    assert pending' == [pending'[0]] + pending'[1..];
  }

  lemma SmallerMap(m: Running, p: Path)
    ensures |m - {p}| <= |m|
  {
    assert (m - {p}).Keys == m.Keys - {p};
    if p in m {
      assert m.Keys == (m.Keys - {p}) + {p};
    } else {
      assert m.Keys - {p} == m.Keys;
    }
    assert |m.Keys| == |m| && |(m - {p}).Keys| == |m - {p}|;
  }

  // ---- the results ----

  /** No two of these source files have the same file name. */
  ghost predicate NamesDiffer(ps: set<Path>) {
    forall p, q | p in ps && q in ps && FileName(p) == FileName(q) :: p == q
  }

  /** Units whose last compilation failed are not ready, every remembered file name is one of theirs, and all of theirs
      are remembered as long as file names differ. */
  ghost predicate ResultsOk(ready: map<Path, Path>, failed: set<string>, finished: set<Path>, broken: set<Path>) {
    && broken <= finished && (forall p | p in broken :: p !in ready)
    && (forall name | name in failed :: exists p | p in broken :: FileName(p) == name)
    && (NamesDiffer(finished) ==> forall p | p in broken :: FileName(p) in failed)
  }

  lemma ResultsSuccess(ready: map<Path, Path>, failed: set<string>, finished: set<Path>, broken: set<Path>, u: Unit)
    requires ResultsOk(ready, failed, finished, broken)
    ensures ResultsOk(ready[u.source := u.obj], failed - {FileName(u.source)}, finished + {u.source},
      broken - {u.source})
  {
  }

  lemma ResultsFailure(ready: map<Path, Path>, failed: set<string>, finished: set<Path>, broken: set<Path>, u: Unit)
    requires ResultsOk(ready, failed, finished, broken)
    ensures ResultsOk(ready - {u.source}, failed + {FileName(u.source)}, finished + {u.source}, broken + {u.source})
  {
  }

  /** What is known of a unit after a compilation with this status. */
  function Outcome(u: Unit, status: int): (Option<Path>, bool, bool) {
    (if status == 0 then Some(u.obj) else None, true, status != 0)
  }

  // ---- the object ----

  class Compiler {
    const workers: nat
    var running: Running
    var pending: seq<Unit>
    /** Compiled and not yet linked: source file to object file. */
    var ready: map<Path, Path>
    /** File names of units that failed to compile. */
    var failed: set<string>
    var shouldLink: bool
    /** The object files being linked. */
    var linkTask: Option<set<Path>>
    /** The units whose compilation ever finished, and those whose last one failed. */
    ghost var finished: set<Path>
    ghost var broken: set<Path>

    ghost predicate Queue()
      reads this`running, this`pending
    {
      QueueOk(workers, running, pending)
    }

    ghost predicate Results()
      reads this`ready, this`failed, this`finished, this`broken
    {
      ResultsOk(ready, failed, finished, broken)
    }

    /** While linking nothing is compiled, and everything ready is being linked. */
    ghost predicate Linking()
      reads this`running, this`pending, this`ready, this`linkTask, this`shouldLink
    {
      linkTask.Some? ==>
        running == map[] && (workers > 0 ==> pending == []) && ready.Values <= linkTask.value && !shouldLink
    }

    ghost predicate Valid()
      reads this
    {
      Queue() && Results() && Linking()
    }

    constructor (workers: nat)
      ensures Valid() && this.workers == workers && pending == [] && running == map[] && ready == map[] &&
        linkTask == None
      ensures failed == {} && finished == {} && broken == {} && !shouldLink
    {
      this.workers := workers;
      running, pending, ready, failed, shouldLink, linkTask := map[], [], map[], {}, false, None;
      finished, broken := {}, {};
    }

    /** A new request replaces a running or waiting compilation of the same file. */
    method Compile(u: Unit)
      requires Valid() && linkTask.None?
      modifies this`running, this`pending
      ensures Valid() && running == old(running) - {u.source} && pending == WithoutSource(old(pending), u.source) + [u]
    {
      hide WithoutSource, QueueOk, ResultsOk;
      QueueDrop(workers, running, pending, u.source);
      QueuePush(workers, running - {u.source}, WithoutSource(pending, u.source), u);
      running := running - {u.source};
      pending := WithoutSource(pending, u.source);
      pending := pending + [u];
    }

    method RequestLink()
      requires Valid() && linkTask.None?
      modifies this`shouldLink
      ensures Valid() && shouldLink
    {
      shouldLink := true;
    }

    method Remove(p: Path)
      requires Valid()
      modifies this`running, this`pending, this`ready
      ensures Valid() && running == old(running) - {p} && ready == old(ready) - {p}
      ensures pending == WithoutSource(old(pending), p)
    {
      hide QueueOk;
      QueueDrop(workers, running, pending, p);
      FewerReady(ready, p);
      running := running - {p};
      pending := WithoutSource(pending, p);
      ready := ready - {p};
    }

    /** One compilation is over. */
    method Finish(u: Unit, status: int)
      requires Valid() && u.source in running && running[u.source] == u
      modifies this`running, this`ready, this`failed, this`finished, this`broken
      ensures Valid() && running == old(running) - {u.source} && finished == old(finished) + {u.source}
      ensures if status == 0 then ready == old(ready)[u.source := u.obj] && broken == old(broken) - {u.source}
              else ready == old(ready) - {u.source} && broken == old(broken) + {u.source}
      ensures failed == if status == 0 then old(failed) - {FileName(u.source)} else old(failed) + {FileName(u.source)}
      ensures Result(u.source) == Outcome(u, status) && forall p | p != u.source :: Result(p) == old(Result(p))
    {
      hide QueueOk, ResultsOk, FileName;
      QueueDrop(workers, running, pending, u.source);
      if status == 0 {
        ResultsSuccess(ready, failed, finished, broken, u);
        ready := ready[u.source := u.obj];
        failed := failed - {FileName(u.source)};
        broken := broken - {u.source};
      } else {
        ResultsFailure(ready, failed, finished, broken, u);
        ready := ready - {u.source};
        failed := failed + {FileName(u.source)};
        broken := broken + {u.source};
      }
      finished := finished + {u.source};
      running := running - {u.source};
    }

    /** Starts waiting compilations while there are idle workers; then none waits or all workers are busy. */
    method StartTasks()
      requires Valid()
      modifies this`running, this`pending
      ensures Valid() && (pending == [] || |running| == workers)
      ensures linkTask.Some? ==> running == old(running) && pending == old(pending)
      ensures Moved(old(running), old(pending), running, pending)
    {
      hide QueueOk, ResultsOk, Moved;
      AtMostWorkers(workers, running, pending);
      MovedNone(running, pending);
      while |running| < workers && pending != []
        invariant Valid() && |running| <= workers
        invariant linkTask.Some? ==> running == old(running) && pending == old(pending)
        invariant Moved(old(running), old(pending), running, pending)
        decreases |pending|
      {
        QueueStart(workers, running, pending);
        FrontAbsent(workers, running, pending);
        MovedOne(old(running), old(pending), running, pending);
        running := running[pending[0].source := pending[0]];
        pending := pending[1..];
      }
    }

    /** Links what is ready if it is self-contained; otherwise first compiles exactly the units it lacks. */
    method DoLink(w: World)
      requires Valid() && linkTask.None? && running == map[] && (workers > 0 ==> pending == []) && failed == {}
      requires w.Keyed() && !shouldLink
      modifies this`running, this`pending, this`shouldLink, this`linkTask
      ensures Valid() && running == map[]
      ensures linkTask.Some? <==> ready != map[] && SelfContained(w, ready.Values)
      ensures linkTask.Some? ==> linkTask.value == ready.Values && pending == old(pending)
      ensures shouldLink <==> ready != map[] && !SelfContained(w, ready.Values)
      ensures linkTask.None? && ready != map[] ==>
                shouldLink && exists objects :: Closure(w, ready.Values, objects) && Waiting(objects - ready.Values)
    {
      hide QueueOk, ResultsOk, WithoutSource;
      if ready == map[] { return; }
      var objects, extra := Collect(w, ready.Values);
      ExtrasFacts(w, ready.Values, objects, extra);
      hide Closure, Extras;
      for i := 0 to |extra|
        invariant Valid() && running == map[] && linkTask.None?
        invariant forall k | 0 <= k < i :: extra[k] in pending
        invariant (i == 0 ==> pending == old(pending)) && !shouldLink
      {
        WithoutSourceIs(pending, extra[i].source);
        Compile(extra[i]);
      }
      if extra != [] {
        shouldLink := true;
        return;
      }
      linkTask := Some(objects);
    }

    /** What is known of a unit: its ready object file, whether it ever finished, and whether it is broken. */
    ghost function Result(p: Path): (Option<Path>, bool, bool)
      reads this`ready, this`finished, this`broken
    {
      (if p in ready then Some(ready[p]) else None, p in finished, p in broken)
    }

    /** Takes the results of the compilations that are over. */
    method FinishTasks(exits: map<Path, int>)
      requires Valid()
      modifies this`running, this`ready, this`failed, this`finished, this`broken
      ensures Valid() && running == old(running) - exits.Keys
      ensures linkTask.Some? ==> ready == old(ready)
      ensures forall p | p in exits && p in old(running) :: Result(p) == Outcome(old(running)[p], exits[p])
      ensures forall p | !(p in exits && p in old(running)) :: Result(p) == old(Result(p))
      ensures exits.Keys !! old(running).Keys ==> failed == old(failed)
    {
      hide QueueOk, ResultsOk, FileName, Result, Outcome;
      var left := exits.Keys;
      while left != {}
        invariant Valid() && left <= exits.Keys && running == old(running) - (exits.Keys - left)
        invariant linkTask.Some? ==> ready == old(ready)
        invariant forall p | p in exits && p in old(running) && p !in left ::
          Result(p) == Outcome(old(running)[p], exits[p])
        invariant exits.Keys !! old(running).Keys ==> failed == old(failed)
        invariant forall p | p in left || !(p in exits && p in old(running)) :: Result(p) == old(Result(p))
        decreases left
      {
        var p :| p in left;
        if p in running {
          RunningKeyed(workers, running, pending, p);
          Finish(running[p], exits[p]);
        }
        left := left - {p};
      }
    }

    /** The link process is over; `opens` tells whether the library could be loaded. A loaded library holds everything
        that was ready. */
    method FinishLink(status: int, opens: bool) returns (result: int)
      requires Valid() && linkTask.Some?
      modifies this`ready, this`linkTask
      ensures Valid() && linkTask.None? && result == (if status == 0 && !opens then 123 else status)
      ensures ready == if result == 0 then map[] else old(ready)
      ensures result == 0 ==> old(ready).Values <= old(linkTask).value
    {
      result := status;
      if status == 0 && !opens {
        result := 123;
      }
      linkTask := None;
      if result == 0 {
        ready := map[];
      }
    }

    /** All compilations are over and a library is wanted. */
    method TryLink(w: World) returns (linked: Option<set<Path>>, result: Option<int>)
      requires Valid() && w.Keyed() && linkTask.None? && running == map[] && (workers > 0 ==> pending == [])
      modifies this`running, this`pending, this`shouldLink, this`linkTask
      ensures Valid() && running == map[] && linked == linkTask
      ensures if failed != {} then linked.None? && result == Some(125) else result.None?
      ensures shouldLink <==> failed == {} && ready != map[] && !SelfContained(w, ready.Values)
      ensures (failed != {} ==> broken != {}) && (NamesDiffer(finished) && broken != {} ==> failed != {})
      ensures linked.Some? ==>
                && SelfContained(w, linked.value) && ready.Values == linked.value
                && (workers > 0 ==> pending == []) && (NamesDiffer(finished) ==> broken == {})
      ensures failed == {} && linked.None? ==> ready == map[] || (shouldLink && !SelfContained(w, ready.Values))
    {
      hide QueueOk, ResultsOk, WithoutSource, SelfContained, Closure, NamesDiffer;
      shouldLink := false;
      NoneBroken(ready, failed, finished, broken);
      if failed == {} {
        DoLink(w);
        linked, result := linkTask, None;
      } else {
        linked, result := None, Some(125);
      }
    }

    /** Results are taken and waiting compilations started. */
    method Compilations(exits: map<Path, int>)
      requires Valid()
      modifies this`running, this`pending, this`ready, this`failed, this`finished, this`broken
      ensures Valid() && (running == map[] && workers > 0 ==> pending == [])
      ensures forall p | p in old(running) && p !in exits :: p in running
      ensures forall p | p in running ::
                (p in old(running) && p !in exits) || exists u | u in old(pending) :: u.source == p
      ensures exits.Keys !! old(running).Keys ==> failed == old(failed)
      ensures forall p | p in ready :: p in old(ready) || p in exits
    {
      hide QueueOk, ResultsOk, FileName, Outcome;
      FinishTasks(exits);
      forall p | p in ready && p !in exits ensures p in old(ready) {
        assert Result(p) == old(Result(p));
      }
      hide Result;
      StartTasks();
    }

    /** Links when it is wanted and nothing is compiled. */
    method LinkIfWanted(w: World) returns (linked: Option<set<Path>>, result: Option<int>)
      requires Valid() && w.Keyed() && (running == map[] && workers > 0 ==> pending == [])
      modifies this`running, this`pending, this`shouldLink, this`linkTask
      ensures Valid() && running == old(running) && linkTask == if linked.Some? then linked else old(linkTask)
      ensures result == if old(shouldLink) && running == map[] && failed != {} then Some(125) else None
      ensures shouldLink <==>
                && old(shouldLink)
                && (running != map[] || (failed == {} && ready != map[] && !SelfContained(w, ready.Values)))
      ensures linked.Some? ==>
                && old(shouldLink) && running == map[] && failed == {} && SelfContained(w, linked.value)
                && ready.Values == linked.value && (workers > 0 ==> pending == [])
                && (NamesDiffer(finished) ==> broken == {})
      ensures old(shouldLink) && running == map[] && failed == {} && linked.None? ==>
                ready == map[] || (shouldLink && !SelfContained(w, ready.Values))
    {
      hide QueueOk, ResultsOk, WithoutSource, SelfContained, Closure, NamesDiffer, Result, Outcome;
      linked, result := None, None;
      if running == map[] && shouldLink {
        linked, result := TryLink(w);
      }
    }

    /** One turn of the run loop. A library is linked only when no compilation runs or waits and none failed; what is
        linked is what is ready, and it is self-contained. */
    method Update(exits: map<Path, int>, w: World, linkExit: Option<int>, opens: bool)
      returns (linked: Option<set<Path>>, result: Option<int>)
      requires Valid() && w.Keyed()
      modifies this
      ensures Valid()
      ensures shouldLink <==>
                && old(shouldLink)
                && (running != map[] || (failed == {} && ready != map[] && !SelfContained(w, ready.Values)))
      ensures running != map[] ==> linked.None?
      ensures forall p | p in old(running) && p !in exits :: p in running
      ensures forall p | p in running ::
                (p in old(running) && p !in exits) || exists u | u in old(pending) :: u.source == p
      ensures exits.Keys !! old(running).Keys ==> failed == old(failed)
      ensures forall p | p in ready :: p in old(ready) || p in exits
      ensures (!old(shouldLink) ==> linked.None?) && (old(linkTask).None? && linked.None? ==> linkTask.None?)
      ensures old(shouldLink) && running == map[] && failed != {} ==> linked.None? && result == Some(125)
      ensures old(shouldLink) && running == map[] && failed == {} && linked.None? ==>
                ready == map[] || (shouldLink && !SelfContained(w, ready.Values))
      ensures linked.Some? ==>
                && running == map[] && failed == {} && SelfContained(w, linked.value)
                && (workers > 0 ==> pending == []) && (NamesDiffer(finished) ==> broken == {})
      ensures linked.Some? ==> if result == Some(0) then ready == map[] else ready.Values == linked.value
    {
      hide QueueOk, ResultsOk, FileName, WithoutSource, SelfContained, Closure, NamesDiffer, Result, Outcome;
      Compilations(exits);
      linked, result := LinkIfWanted(w);
      if linkTask.Some? && linkExit.Some? {
        var status := FinishLink(linkExit.value, opens);
        result := Some(status);
      }
    }

    /** Each of these object files is about to be compiled. */
    ghost predicate Waiting(objects: set<Path>)
      reads this`pending
    {
      forall o | o in objects :: exists u | u in pending :: u.obj == o
    }
  }

  lemma ExtrasFacts(w: World, start: set<Path>, objects: set<Path>, extra: seq<Unit>)
    requires w.Keyed() && Closure(w, start, objects) && Extras(w, start, objects, extra)
    ensures forall i, j | 0 <= i < j < |extra| :: extra[i].source != extra[j].source
    ensures extra == [] <==> SelfContained(w, start)
    ensures extra == [] ==> objects == start
    ensures forall o | o in objects - start :: exists u | u in extra :: u.obj == o
  {
    if extra == [] {
      assert ObjectsOf(extra) == {} && objects == start;
    } else {
      assert extra[0].obj in ObjectsOf(extra);
    }
  }

  lemma RunningKeyed(workers: nat, running: Running, pending: seq<Unit>, p: Path)
    requires QueueOk(workers, running, pending) && p in running
    ensures running[p].source == p
  {
  }

  lemma NoneBroken(ready: map<Path, Path>, failed: set<string>, finished: set<Path>, broken: set<Path>)
    requires ResultsOk(ready, failed, finished, broken)
    ensures (failed != {} ==> broken != {}) && (NamesDiffer(finished) && broken != {} ==> failed != {})
  {
    hide FileName, NamesDiffer;
    if failed != {} {
      var name :| name in failed;
      assert exists p | p in broken :: FileName(p) == name;
    }
    if NamesDiffer(finished) && broken != {} {
      var p :| p in broken;
      assert FileName(p) in failed;
    }
  }

  lemma FrontAbsent(workers: nat, running: Running, pending: seq<Unit>)
    requires QueueOk(workers, running, pending) && pending != []
    ensures pending[0].source !in running
  {
  }

  lemma FewerReady(ready: map<Path, Path>, p: Path)
    ensures (ready - {p}).Values <= ready.Values
  {
  }

  lemma AtMostWorkers(workers: nat, running: Running, pending: seq<Unit>)
    requires QueueOk(workers, running, pending)
    ensures |running| <= workers
  {
  }

  lemma WithoutOther(p: Unit, q: Unit)
    requires p.source != q.source
    ensures WithoutSource([], p.source) == [] && WithoutSource([p], q.source) == [p]
  {
    assert [p][..0] == [];
  }

  /** Two files are being compiled. */
  method CompileTwo(p: Unit, q: Unit) returns (c: Compiler)
    requires p.source != q.source
    ensures fresh(c) && c.Valid() && c.running == map[p.source := p, q.source := q] && c.pending == []
    ensures c.ready == map[] && c.failed == {} && c.finished == {} && c.broken == {} && c.linkTask.None? &&
      !c.shouldLink
  {
    hide FileName, QueueOk, ResultsOk, WithoutSource;
    c := new Compiler(3);
    QueueTwo(c, p, q);
    c.StartTasks();
    AtMostTwo(c.running, p.source, q.source);
    assert p in [p, q] && q in [p, q];
  }

  method QueueTwo(c: Compiler, p: Unit, q: Unit)
    requires p.source != q.source && c.Valid() && c.running == map[] && c.pending == [] && c.linkTask.None?
    modifies c`running, c`pending
    ensures c.Valid() && c.running == map[] && c.pending == [p, q]
  {
    hide FileName, QueueOk, ResultsOk, WithoutSource;
    WithoutOther(p, q);
    c.Compile(p);
    assert c.pending == [p];
    c.Compile(q);
    assert c.pending == [p, q];
  }

  /** Two source files with the same file name are enough: one fails, the other succeeds, and the library is linked
      although the first is still broken. */
  method ClashHidesFailure(p: Unit, q: Unit) returns (c: Compiler)
    requires p.source != q.source && FileName(p.source) == FileName(q.source)
    ensures c.Valid() && c.linkTask.Some? && p.source in c.broken
  {
    hide FileName, QueueOk, ResultsOk, WithoutSource;
    c := CompileTwo(p, q);
    c.Finish(p, 1);
    c.Finish(q, 0);
    assert c.failed == {} && c.running == map[];
    NothingMissing(c.ready.Values);
    assert q.source in c.ready;
    c.DoLink(World(map[], {}, map[], map[]));
  }

  /** A reload is requested while a file is compiled, and a file changes: `compile` is called with a link wanted, which
      it asserts not to happen. The link still waits for both. */
  method ChangeDuringReload(p: Unit, q: Unit, w: World) returns (c: Compiler, wanted: bool)
    requires w.Keyed()
    ensures wanted && c.Valid() && c.shouldLink && c.linkTask.None?
    ensures q in c.pending && (p.source != q.source ==> p.source in c.running)
  {
    hide QueueOk, ResultsOk, FileName, SelfContained, NamesDiffer, WithoutSource;
    c := new Compiler(1);
    CompileOne(c, p);
    c.RequestLink();
    var _, _ := c.Update(map[], w, None, true);
    assert p.source in c.running;
    wanted := c.shouldLink;
    c.Compile(q);
  }

  /** The same without any compilation: the request and the change are handled in one turn. */
  method ChangeInSameTurn(p: Unit, w: World) returns (c: Compiler, idle: bool, wanted: bool)
    requires w.Keyed()
    ensures idle && wanted && c.Valid() && c.shouldLink && p in c.pending
  {
    hide QueueOk, ResultsOk, FileName, SelfContained, NamesDiffer, WithoutSource;
    c := new Compiler(1);
    var linked, _ := c.Update(map[], w, None, true);
    c.RequestLink();
    idle := c.running == map[];
    wanted := c.shouldLink;
    c.Compile(p);
  }

  /** A source file that failed to compile and was then deleted: its name stays, and every later link is refused. */
  method RemovedStillRefuses(p: Unit, w: World) returns (c: Compiler, result: Option<int>)
    requires w.Keyed()
    ensures result == Some(125) && c.Valid() && p.source !in c.running && p.source !in c.ready
  {
    hide QueueOk, ResultsOk, FileName, SelfContained, NamesDiffer, WithoutSource;
    c := new Compiler(1);
    CompileOne(c, p);
    c.Finish(p, 1);
    assert FileName(p.source) in c.failed;
    OnlyOne(p);
    c.Remove(p.source);
    assert c.running == map[] && c.pending == [];
    c.RequestLink();
    var _, r := c.Update(map[], w, None, true);
    result := r;
  }

  method CompileOne(c: Compiler, p: Unit)
    requires c.Valid() && c.running == map[] && c.pending == [] && c.linkTask.None? && c.workers == 1
    modifies c`running, c`pending
    ensures c.Valid() && c.running == map[p.source := p] && c.pending == []
  {
    hide QueueOk, ResultsOk, FileName, WithoutSource;
    OnlyOne(p);
    c.Compile(p);
    assert c.running == map[] && c.pending == [p];
    c.StartTasks();
    assert p in [p];
    OneStarted(c.running, c.pending, p);
  }

  lemma FirstIn(us: seq<Unit>)
    ensures us == [] || us[0] in us
  {
  }

  lemma OneStarted(running: Running, pending: seq<Unit>, p: Unit)
    requires QueueOk(1, running, pending)
    requires (forall u | u in pending :: u == p) && forall q | q in running :: q == p.source
    requires p in pending || (p.source in running && running[p.source] == p)
    requires pending == [] || |running| == 1
    ensures running == map[p.source := p] && pending == []
  {
    assert running.Keys == (if p.source in running then {p.source} else {}) && |running.Keys| == |running|;
    assert p.source in running && Absent(pending, p.source);
    FirstIn(pending);
  }

  lemma OnlyOne(p: Unit)
    ensures WithoutSource([], p.source) == [] && WithoutSource([], p.source) + [p] == [p]
  {
  }

  lemma NothingMissing(objects: set<Path>)
    ensures SelfContained(World(map[], {}, map[], map[]), objects) && World(map[], {}, map[], map[]).Keyed()
  {
  }

  lemma AtMostTwo(m: Running, a: Path, b: Path)
    requires forall k | k in m :: k == a || k == b
    ensures |m| <= 2
  {
    assert m.Keys <= {a, b};
    SmallerSet(m.Keys, {a, b});
    assert |m.Keys| == |m|;
  }

  lemma {:induction false} SmallerSet(a: set<Path>, b: set<Path>)
    requires a <= b
    ensures |a| <= |b|
  {
    if a != {} {
      var x :| x in a;
      SmallerSet(a - {x}, b - {x});
    }
  }
}
