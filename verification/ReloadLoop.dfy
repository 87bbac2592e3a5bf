/** The run loop around the compile queue: reload requests, changed files, and when the two meet. */
module ReloadLoop {
  import opened CompileQueue
  import opened LinkClosure
  import opened Options

  /** What the loop is told: reload, compile a unit again, or forget one. */
  datatype Event = Reload | Change(u: Unit) | Removal(p: Path)

  /** One turn: the events that arrived before it, and what the compilers and the linker did. */
  datatype Tick = Tick(arrived: seq<Event>, exits: map<Path, int>, w: World, linkExit: Option<int>, opens: bool)

  /** What happened: a turn of the compile queue with the state it left, or an event with what `compile` asserts to be
      false when it is called. */
  datatype Entry =
    | Turned(busy: bool, failed: set<string>, ready: set<Path>, w: World)
    | Handled(e: Event, wanted: bool, linking: bool)

  /** A turn that leaves a request open: something is compiled, or what is ready lacks units that are now compiled. */
  ghost predicate Keeps(x: Entry) {
    x.Turned? ==> x.busy || (x.failed == {} && x.ready != {} && !SelfContained(x.w, x.ready))
  }

  predicate IsRequest(x: Entry) { x.Handled? && x.e.Reload? }

  /** A reload was requested, and every turn since then left the request open. */
  ghost predicate Open(log: seq<Entry>) {
    exists r | 0 <= r < |log| :: IsRequest(log[r]) && forall m | r < m < |log| :: Keeps(log[m])
  }

  lemma OpenStep(log: seq<Entry>, x: Entry)
    ensures Open(log + [x]) <==> IsRequest(x) || (Open(log) && Keeps(x))
  {
    hide Keeps, IsRequest;
    var more := log + [x];
    assert more[|log|] == x && forall k | 0 <= k < |log| :: more[k] == log[k];
    if Open(more) {
      var r :| 0 <= r < |more| && IsRequest(more[r]) && forall m | r < m < |more| :: Keeps(more[m]);
      if r < |log| {
        assert Keeps(more[|log|]);
        assert forall m | r < m < |log| :: Keeps(more[m]);
      }
    }
    if Open(log) && Keeps(x) {
      var r :| 0 <= r < |log| && IsRequest(log[r]) && forall m | r < m < |log| :: Keeps(log[m]);
      assert IsRequest(more[r]);
    }
  }

  /** Every event was handled while no link ran, and with a link wanted if and only if a request was open. */
  ghost predicate Exact(log: seq<Entry>) {
    forall k | 0 <= k < |log| && log[k].Handled? :: !log[k].linking && (log[k].wanted <==> Open(log[..k]))
  }

  lemma ExactStep(log: seq<Entry>, x: Entry)
    requires Exact(log) && (x.Handled? ==> !x.linking && (x.wanted <==> Open(log)))
    ensures Exact(log + [x])
  {
    hide Open;
    var more := log + [x];
    forall k | 0 <= k < |more| && more[k].Handled?
      ensures !more[k].linking && (more[k].wanted <==> Open(more[..k]))
    {
      if k < |log| {
        assert more[..k] == log[..k] && more[k] == log[k];
      } else {
        assert more[..k] == log;
      }
    }
  }

  /** The assertion of `compile` holds at every call. */
  predicate Asserted(log: seq<Entry>) {
    forall k | 0 <= k < |log| && log[k].Handled? && log[k].e.Change? :: !log[k].wanted && !log[k].linking
  }

  /** No unit is to be compiled while a request is open. */
  ghost predicate NeverMeet(log: seq<Entry>) {
    forall k | 0 <= k < |log| && log[k].Handled? && log[k].e.Change? :: !Open(log[..k])
  }

  /** The handled events, and the turns. */
  function Events(log: seq<Entry>): seq<Event> {
    if log == [] then []
    else
      var last := log[|log| - 1];
      Events(log[..|log| - 1]) + if last.Handled? then [last.e] else []
  }

  function Worlds(log: seq<Entry>): seq<World> {
    if log == [] then []
    else
      var last := log[|log| - 1];
      Worlds(log[..|log| - 1]) + if last.Turned? then [last.w] else []
  }

  lemma Appended(log: seq<Entry>, x: Entry)
    ensures Events(log + [x]) == Events(log) + if x.Handled? then [x.e] else []
    ensures Worlds(log + [x]) == Worlds(log) + if x.Turned? then [x.w] else []
  {
    assert (log + [x])[..|log|] == log;
  }

  function Arrived(ticks: seq<Tick>): seq<Event> {
    if ticks == [] then [] else Arrived(ticks[..|ticks| - 1]) + ticks[|ticks| - 1].arrived
  }

  class Live {
    const compiler: Compiler
    var events: seq<Event>
    var log: seq<Entry>

    ghost predicate Valid()
      reads this, compiler
    {
      compiler.Valid() && Exact(log) && (compiler.shouldLink <==> Open(log))
    }

    constructor (workers: nat)
      ensures Valid() && fresh(compiler) && events == [] && log == [] && compiler.linkTask.None?
    {
      compiler := new Compiler(workers);
      events, log := [], [];
    }

    method Handle(e: Event)
      requires Valid() && compiler.linkTask.None?
      modifies this`log, compiler
      ensures Valid() && compiler.linkTask.None?
      ensures log == old(log) + [Handled(e, old(compiler.shouldLink), false)]
    {
      hide QueueOk, ResultsOk, WithoutSource, Open, Exact;
      var x := Handled(e, compiler.shouldLink, compiler.linkTask.Some?);
      ExactStep(log, x);
      OpenStep(log, x);
      match e {
        case Reload => compiler.RequestLink();
        case Change(u) => compiler.Compile(u);
        case Removal(p) => compiler.Remove(p);
      }
      log := log + [x];
    }

    method HandleAll()
      requires Valid() && compiler.linkTask.None?
      modifies this, compiler
      ensures Valid() && compiler.linkTask.None? && events == []
      ensures Events(log) == old(Events(log)) + old(events) && Worlds(log) == old(Worlds(log))
    {
      hide QueueOk, ResultsOk, Open, Exact, Events, Worlds;
      while events != []
        invariant Valid() && compiler.linkTask.None?
        invariant Events(log) + events == old(Events(log)) + old(events) && Worlds(log) == old(Worlds(log))
        decreases |events|
      {
        Appended(log, Handled(events[0], compiler.shouldLink, false));
        assert events == [events[0]] + events[1..];
        ghost var before, e := Events(log), events[0];
        Handle(events[0]);
        events := events[1..];
        assert before + ([e] + events) == before + [e] + events;
      }
    }

    /** `Live::update`: events wait while a link runs. */
    method Update(t: Tick)
      requires Valid() && t.w.Keyed()
      modifies this, compiler
      ensures Valid() && (compiler.linkTask.None? ==> events == [])
      ensures Events(log) + events == old(Events(log)) + (old(events) + t.arrived)
      ensures Worlds(log) == old(Worlds(log)) + [t.w]
    {
      hide QueueOk, ResultsOk, Open, Exact, Events, Worlds, SelfContained, NamesDiffer;
      events := events + t.arrived;
      TurnCompiler(t);
      if compiler.linkTask.Some? { return; }
      HandleAll();
    }

    method TurnCompiler(t: Tick)
      requires Valid() && t.w.Keyed()
      modifies this`log, compiler
      ensures Valid() && Events(log) == old(Events(log)) && Worlds(log) == old(Worlds(log)) + [t.w]
      ensures log ==
        old(log) + [Turned(compiler.running != map[], compiler.failed, compiler.ready.Values, t.w)]
    {
      hide QueueOk, ResultsOk, Open, Exact, Events, Worlds, SelfContained, NamesDiffer;
      var _, _ := compiler.Update(t.exits, t.w, t.linkExit, t.opens);
      var x := Turned(compiler.running != map[], compiler.failed, compiler.ready.Values, t.w);
      NoValues(compiler.ready);
      ExactStep(log, x);
      OpenStep(log, x);
      Appended(log, x);
      log := log + [x];
    }
  }

  lemma NoValues(m: map<Path, Path>)
    ensures m == map[] <==> m.Values == {}
  {
    if m != map[] {
      var k :| k in m;
      assert m[k] in m.Values;
    }
  }

  /** Every run of the loop: all events are handled in the order in which they arrived, except those that wait
      for a link, and `compile` finds its assertion true at every call if and only if no unit is to be compiled
      while a request is open. */
  method Run(workers: nat, ticks: seq<Tick>) returns (log: seq<Entry>, waiting: seq<Event>)
    requires forall k | 0 <= k < |ticks| :: ticks[k].w.Keyed()
    ensures Events(log) + waiting == Arrived(ticks)
    ensures Worlds(log) == seq(|ticks|, k requires 0 <= k < |ticks| => ticks[k].w)
    ensures Exact(log) && (Asserted(log) <==> NeverMeet(log))
  {
    hide QueueOk, ResultsOk, Open, Exact, Events, Worlds;
    var live := new Live(workers);
    NothingYet();
    for k := 0 to |ticks|
      invariant live.Valid() && fresh(live) && fresh(live.compiler)
      invariant Events(live.log) + live.events == Arrived(ticks[..k])
      invariant Worlds(live.log) == seq(k, n requires 0 <= n < k => ticks[n].w)
    {
      assert ticks[..k + 1][..k] == ticks[..k];
      ghost var before, queued := Events(live.log), live.events;
      live.Update(ticks[k]);
      assert before + (queued + ticks[k].arrived) == before + queued + ticks[k].arrived;
    }
    assert ticks[..|ticks|] == ticks;
    log, waiting := live.log, live.events;
    ExactMeets(log);
  }

  lemma NothingYet()
    ensures Events([]) == [] && Worlds([]) == []
  {
  }

  lemma ExactMeets(log: seq<Entry>)
    requires Exact(log)
    ensures Asserted(log) <==> NeverMeet(log)
  {
    hide Open;
  }
}
