/** Which object files a reload library needs: the least set that resolves what it can. */
module LinkClosure {
  import opened Options

  type Path = string
  type Name = string

  /** A compilation unit: its source file and its object file. */
  datatype Unit = Unit(source: Path, obj: Path)

  /** What is known of object files and loaded programs when a library is linked. */
  datatype World = World(undefinedIn: map<Path, set<Name>>, exported: set<Name>, definedIn: map<Name, Path>,
                         units: map<Path, Unit>)
  {
    function Undefined(obj: Path): set<Name> { if obj in undefinedIn then undefinedIn[obj] else {} }

    /** The unit that has to be linked for a symbol: none if a loaded program exports it or no source file
        defines it. */
    function Provider(s: Name): Option<Unit> {
      if s in exported || s !in definedIn || definedIn[s] !in units then None else Some(units[definedIn[s]])
    }

    /** Units are listed under their source files. */
    predicate Keyed() { forall p | p in units :: units[p].source == p }

    /** All object files of the project. */
    function Objects(): set<Path> { set p | p in units :: units[p].obj }
  }

  predicate Resolved(w: World, objects: set<Path>, s: Name) {
    w.Provider(s).Some? ==> w.Provider(s).value.obj in objects
  }

  /** Every symbol these object files need is in them, in a loaded program, or nowhere in the project. */
  ghost predicate SelfContained(w: World, objects: set<Path>) {
    forall o, s | o in objects && s in w.Undefined(o) :: Resolved(w, objects, s)
  }

  /** The smallest self-contained set that holds the given object files. */
  ghost predicate Closure(w: World, start: set<Path>, objects: set<Path>) {
    && start <= objects && SelfContained(w, objects)
    && forall c: set<Path> | start <= c && SelfContained(w, c) :: objects <= c
  }

  /** A self-contained set needs nothing more, so linking again after the missing files were compiled adds none. */
  lemma ClosedNeedsNothing(w: World, start: set<Path>, objects: set<Path>, again: set<Path>)
    requires Closure(w, start, objects) && start <= again <= objects
    ensures Closure(w, again, objects)
    ensures again == objects ==> forall more | Closure(w, again, more) :: more == again
  {
  }

  /** What the search knows while it runs: everything needed so far is waiting or resolved, and nothing else was
      added. */
  ghost predicate Searching(w: World, start: set<Path>, objects: set<Path>, waiting: set<Name>) {
    && start <= objects
    && (forall o, s | o in objects && s in w.Undefined(o) :: s in waiting || Resolved(w, objects, s))
    && (forall s | s in waiting :: exists o | o in objects :: s in w.Undefined(o))
    && (forall c: set<Path> | start <= c && SelfContained(w, c) :: objects <= c)
  }

  lemma SkipSymbol(w: World, start: set<Path>, objects: set<Path>, waiting: set<Name>, s: Name)
    requires Searching(w, start, objects, waiting) && Resolved(w, objects, s)
    ensures Searching(w, start, objects, waiting - {s})
  {
  }

  lemma AddUnit(w: World, start: set<Path>, objects: set<Path>, waiting: set<Name>, s: Name, u: Unit)
    requires Searching(w, start, objects, waiting) && s in waiting && w.Provider(s) == Some(u)
    ensures Searching(w, start, objects + {u.obj}, waiting - {s} + w.Undefined(u.obj))
  {
    var more, left := objects + {u.obj}, waiting - {s} + w.Undefined(u.obj);
    forall o, t | o in more && t in w.Undefined(o) ensures t in left || Resolved(w, more, t) {
    }
    forall c: set<Path> | start <= c && SelfContained(w, c) ensures more <= c {
      var o :| o in objects && s in w.Undefined(o);
      assert Resolved(w, c, s);
    }
  }

  lemma StartSearch(w: World, start: set<Path>)
    ensures Searching(w, start, start, set o, s | o in start && s in w.Undefined(o) :: s)
  {
  }

  lemma EndSearch(w: World, start: set<Path>, objects: set<Path>)
    requires Searching(w, start, objects, {})
    ensures Closure(w, start, objects)
  {
  }

  lemma ProviderKnown(w: World, s: Name)
    requires w.Provider(s).Some?
    ensures w.Provider(s).value in w.units.Values && w.Provider(s).value.obj in w.Objects()
  {
  }

  function ObjectsOf(us: seq<Unit>): set<Path> { set u | u in us :: u.obj }

  /** The units added to the start, each once. */
  predicate Extras(w: World, start: set<Path>, objects: set<Path>, extra: seq<Unit>) {
    && objects == start + ObjectsOf(extra)
    && (forall i | 0 <= i < |extra| :: extra[i].obj !in start && extra[i] in w.units.Values)
    && (forall i, j | 0 <= i < j < |extra| :: extra[i].obj != extra[j].obj)
  }

  lemma ExtrasPush(w: World, start: set<Path>, objects: set<Path>, extra: seq<Unit>, u: Unit)
    requires Extras(w, start, objects, extra) && u in w.units.Values && u.obj !in objects
    ensures Extras(w, start, objects + {u.obj}, extra + [u])
  {
    assert ObjectsOf(extra + [u]) == ObjectsOf(extra) + {u.obj} by {
      assert forall v :: v in extra + [u] <==> v in extra || v == u;
    }
    assert forall i | 0 <= i < |extra| :: extra[i].obj in ObjectsOf(extra);
  }

  /** The search of the linker: the units that have to be compiled before the library can be linked, each once. */
  method Collect(w: World, start: set<Path>) returns (objects: set<Path>, extra: seq<Unit>)
    ensures Closure(w, start, objects) && Extras(w, start, objects, extra)
  {
    hide Searching, Extras;
    objects, extra := start, [];
    var waiting := set o, s | o in start && s in w.Undefined(o) :: s;
    StartSearch(w, start);
    NoExtras(w, start);
    while waiting != {}
      invariant Searching(w, start, objects, waiting) && Extras(w, start, objects, extra)
      decreases w.Objects() - objects, waiting
    {
      var s :| s in waiting;
      var provider := w.Provider(s);
      if provider.Some? && provider.value.obj !in objects {
        var u := provider.value;
        ProviderKnown(w, s);
        AddUnit(w, start, objects, waiting, s, u);
        ExtrasPush(w, start, objects, extra, u);
        assert u.obj in w.Objects() - objects;
        objects, extra := objects + {u.obj}, extra + [u];
        waiting := waiting - {s} + w.Undefined(u.obj);
      } else {
        SkipSymbol(w, start, objects, waiting, s);
        waiting := waiting - {s};
      }
    }
    EndSearch(w, start, objects);
  }

  lemma NoExtras(w: World, start: set<Path>)
    ensures Extras(w, start, start, [])
  {
  }
}
