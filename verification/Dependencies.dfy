/** Which compilation units depend on which files, kept in both directions. */
module Dependencies {
  import opened LinkClosure
  import opened Options
  import opened CompileQueue

  type Relation = map<Path, set<Path>>

  function At(r: Relation, p: Path): set<Path> { if p in r then r[p] else {} }

  /** The two maps are each other's inverse. */
  ghost predicate Inverse(deps: Relation, users: Relation) {
    forall cu, file :: file in At(deps, cu) <==> cu in At(users, file)
  }

  lemma InverseAt(deps: Relation, users: Relation, file: Path)
    requires Inverse(deps, users)
    ensures forall cu :: file in At(deps, cu) <==> cu in At(users, file)
  {
  }

  /** Replacing the files of one unit. */
  lemma InverseUpdate(deps: Relation, users: Relation, cu: Path, files: set<Path>, deps': Relation, users': Relation)
    requires Inverse(deps, users)
    requires forall p :: At(deps', p) == if p == cu then files else At(deps, p)
    requires forall f ::
      At(users', f) == At(users, f) - (if f in At(deps, cu) then {cu} else {}) + if f in files then {cu} else {}
    ensures Inverse(deps', users')
  {
    forall p, f ensures f in At(deps', p) <==> p in At(users', f) {
      InverseAt(deps, users, f);
    }
  }

  class Tracker {
    /** Source file to the files it depends on. */
    var dependencies: Relation
    /** File to the source files that depend on it. */
    var inverseDependencies: Relation

    ghost predicate Valid()
      reads this
    {
      Inverse(dependencies, inverseDependencies)
    }

    constructor ()
      ensures Valid() && forall cu :: At(dependencies, cu) == {}
    {
      dependencies, inverseDependencies := map[], map[];
    }

    method EraseUser(cu: Path, files: set<Path>)
      modifies this`inverseDependencies
      ensures forall f ::
        At(inverseDependencies, f) == At(old(inverseDependencies), f) - if f in files then {cu} else {}
    {
      var left := files;
      while left != {}
        invariant left <= files
        invariant forall f ::
          At(inverseDependencies, f) == At(old(inverseDependencies), f) - if f in files - left then {cu} else {}
        decreases left
      {
        var f :| f in left;
        inverseDependencies := inverseDependencies[f := At(inverseDependencies, f) - {cu}];
        left := left - {f};
      }
    }

    method InsertUser(cu: Path, files: set<Path>)
      modifies this`inverseDependencies
      ensures forall f ::
        At(inverseDependencies, f) == At(old(inverseDependencies), f) + if f in files then {cu} else {}
    {
      var left := files;
      while left != {}
        invariant left <= files
        invariant forall f ::
          At(inverseDependencies, f) == At(old(inverseDependencies), f) + if f in files - left then {cu} else {}
        decreases left
      {
        var f :| f in left;
        inverseDependencies := inverseDependencies[f := At(inverseDependencies, f) + {cu}];
        left := left - {f};
      }
    }

    /** `files` is what the compiler reported for the unit this time. */
    method UpdateDependencies(cu: Path, files: set<Path>)
      requires Valid()
      modifies this
      ensures Valid() && dependencies == old(dependencies)[cu := files]
    {
      EraseUser(cu, At(dependencies, cu));
      InsertUser(cu, files);
      dependencies := dependencies[cu := files];
      InverseUpdate(old(dependencies), old(inverseDependencies), cu, files, dependencies, inverseDependencies);
    }

    method RemoveUnit(cu: Path)
      requires Valid()
      modifies this
      ensures Valid() && dependencies == old(dependencies) - {cu}
    {
      EraseUser(cu, At(dependencies, cu));
      dependencies := dependencies - {cu};
      InverseUpdate(old(dependencies), old(inverseDependencies), cu, {}, dependencies, inverseDependencies);
    }

    /** The file is one the unit depends on. */
    predicate Depends(cu: Path, file: Path, units: map<Path, Unit>)
      reads this`dependencies
    {
      cu in units && file in At(dependencies, cu)
    }

    /** A changed file that is known as a dependency: exactly the units that depend on it are compiled again. */
    method Recompile(file: Path, units: map<Path, Unit>, c: Compiler) returns (known: bool)
      requires Valid() && c.Valid() && c.linkTask.None? && (forall p | p in units :: units[p].source == p)
      modifies c`running, c`pending
      ensures c.Valid() && known == (file in inverseDependencies)
      ensures !known ==> c.running == old(c.running) && c.pending == old(c.pending)
      ensures forall u | u in old(c.pending) && !Depends(u.source, file, units) :: u in c.pending
      ensures forall p | p in c.running :: p in old(c.running) && c.running[p] == old(c.running)[p]
      ensures forall p | p in old(c.running) && !Depends(p, file, units) :: p in c.running
      ensures known ==> forall cu | Depends(cu, file, units) :: units[cu] in c.pending && cu !in c.running
      ensures forall u | u in c.pending && u !in old(c.pending) ::
        Depends(u.source, file, units) && u == units[u.source]
    {
      hide QueueOk, ResultsOk, WithoutSource, Inverse;
      known := file in inverseDependencies;
      InverseAt(dependencies, inverseDependencies, file);
      if !known { return; }
      var all := inverseDependencies[file];
      CompileAll(all, units, c);
    }
  }

  method CompileAll(all: set<Path>, units: map<Path, Unit>, c: Compiler)
    requires c.Valid() && c.linkTask.None? && (forall p | p in units :: units[p].source == p)
    modifies c`running, c`pending
    ensures c.Valid() && forall cu | cu in units && cu in all :: units[cu] in c.pending && cu !in c.running
    ensures forall u | u in c.pending && u !in old(c.pending) ::
      u.source in units && u == units[u.source] && u.source in all
    ensures forall u | u in old(c.pending) && !(u.source in units && u.source in all) :: u in c.pending
    ensures forall p | p in c.running :: p in old(c.running) && c.running[p] == old(c.running)[p]
    ensures forall p | p in old(c.running) && !(p in units && p in all) :: p in c.running
  {
    hide QueueOk, ResultsOk, WithoutSource;
    var left := all;
    while left != {}
      invariant c.Valid() && left <= all
      invariant forall cu | cu in units && cu in all - left :: units[cu] in c.pending && cu !in c.running
      invariant forall u | u in c.pending && u !in old(c.pending) ::
        u.source in units && u == units[u.source] && u.source in all
      invariant forall u | u in old(c.pending) && !(u.source in units && u.source in all) :: u in c.pending
      invariant forall p | p in c.running :: p in old(c.running) && c.running[p] == old(c.running)[p]
      invariant forall p | p in old(c.running) && !(p in units && p in all) :: p in c.running
      decreases left
    {
      var cu :| cu in left;
      if cu in units {
        WithoutSourceIs(c.pending, cu);
        c.Compile(units[cu]);
      }
      left := left - {cu};
    }
  }
}
