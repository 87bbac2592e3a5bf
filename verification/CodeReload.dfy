/** Redirecting functions to their reloaded versions, over any number of reloads. */
module CodeReload {
  import opened Options

  /** A symbol of a loaded program; a local one is told from its namesakes by the hash of its file. */
  datatype Symbol = Symbol(name: string, address: nat, hash: nat, checkHash: bool)

  type Table = map<string, seq<Symbol>>

  function FirstMatch(syms: seq<Symbol>, hash: nat): Option<Symbol> {
    if syms == [] then None
    else if !syms[0].checkHash || syms[0].hash == hash then Some(syms[0])
    else FirstMatch(syms[1..], hash)
  }

  function Find(t: Table, name: string, hash: nat): Option<Symbol> {
    if name in t then FirstMatch(t[name], hash) else None
  }

  predicate In(t: Table, f: Symbol) { f.name in t && f in t[f.name] }

  method FindSymbol(t: Table, name: string, hash: nat) returns (r: Option<Symbol>)
    ensures r == Find(t, name, hash)
  {
    if name !in t { return None; }
    var syms := t[name];
    for i := 0 to |syms|
      invariant FirstMatch(syms, hash) == FirstMatch(syms[i..], hash)
    {
      if !syms[i].checkHash || syms[i].hash == hash { return Some(syms[i]); }
      assert syms[i..][1..] == syms[i + 1..];
    }
    r := None;
  }

  lemma {:induction false} FirstMatchFacts(syms: seq<Symbol>, hash: nat)
    ensures var r := FirstMatch(syms, hash);
            && (r.Some? ==> r.value in syms && (!r.value.checkHash || r.value.hash == hash))
            && forall f | f in syms && (!f.checkHash || f.hash == hash) :: r.Some?
  {
    if syms != [] {
      assert syms == [syms[0]] + syms[1..];
      FirstMatchFacts(syms[1..], hash);
    }
  }

  /** A listed symbol's own lookup finds something. */
  lemma FindsSome(t: Table, f: Symbol)
    requires In(t, f)
    ensures Find(t, f.name, f.hash).Some?
  {
    FirstMatchFacts(t[f.name], f.hash);
  }

  // ---- versions ----

  /** The last loaded version among the first n programs. */
  function LastVersion(ps: seq<Table>, n: nat, f: Symbol): Option<Symbol>
    requires n <= |ps|
  {
    if n == 0 then None
    else if Find(ps[n - 1], f.name, f.hash).Some? then Find(ps[n - 1], f.name, f.hash)
    else LastVersion(ps, n - 1, f)
  }

  /** The next loaded version of a function, from program j on. */
  function NextVersion(ps: seq<Table>, j: nat, f: Symbol): Option<Symbol>
    requires j <= |ps|
    decreases |ps| - j
  {
    if j == |ps| then None
    else if Find(ps[j], f.name, f.hash).Some? then Find(ps[j], f.name, f.hash)
    else NextVersion(ps, j + 1, f)
  }

  function AddressOf(s: Option<Symbol>): Option<nat> { if s.Some? then Some(s.value.address) else None }

  /** Where the newest version of a function is. */
  function Newest(ps: seq<Table>, f: Symbol): Option<nat> { AddressOf(LastVersion(ps, |ps|, f)) }

  lemma {:induction false} LastVersionFrame(ps: seq<Table>, more: seq<Table>, n: nat, f: Symbol)
    requires n <= |ps|
    ensures LastVersion(ps + more, n, f) == LastVersion(ps, n, f)
  {
    hide Find;
    if n > 0 {
      LastVersionFrame(ps, more, n - 1, f);
      assert (ps + more)[n - 1] == ps[n - 1];
    }
  }

  lemma {:induction false} HasVersion(ps: seq<Table>, n: nat, i: nat, f: Symbol)
    requires i < n <= |ps| && In(ps[i], f)
    ensures LastVersion(ps, n, f).Some?
    decreases n
  {
    hide Find, In;
    if i < n - 1 {
      HasVersion(ps, n - 1, i, f);
    } else {
      FindsSome(ps[i], f);
    }
  }

  /** Every symbol is listed under its own name. */
  predicate Named(t: Table) { forall name, k | name in t && 0 <= k < |t[name]| :: t[name][k].name == name }

  lemma FoundIsIn(t: Table, f: Symbol)
    requires Named(t) && Find(t, f.name, f.hash).Some?
    ensures var g := Find(t, f.name, f.hash).value; In(t, g) && g.name == f.name && (!g.checkHash || g.hash == f.hash)
  {
    FirstMatchFacts(t[f.name], f.hash);
  }

  lemma {:induction false} WhereLast(ps: seq<Table>, n: nat, f: Symbol) returns (i: nat)
    requires n <= |ps| && (forall k | 0 <= k < n :: Named(ps[k])) && LastVersion(ps, n, f).Some?
    ensures i < n && LastVersion(ps, n, f) == Find(ps[i], f.name, f.hash) && In(ps[i], LastVersion(ps, n, f).value)
    ensures forall k | i < k < n :: Find(ps[k], f.name, f.hash).None?
  {
    hide Find, In, Named;
    if Find(ps[n - 1], f.name, f.hash).Some? {
      i := n - 1;
      FoundIsIn(ps[i], f);
    } else {
      i := WhereLast(ps, n - 1, f);
    }
  }

  // ---- hooks ----

  type Hooks = map<nat, nat>

  /** Pairs of an old and a new address that the hooking library refuses. */
  type Refusals = set<(nat, nat)>

  /** Where a call of an address ends when at most `steps` hooks are followed. */
  function Landing(hooks: Hooks, a: nat, steps: nat): nat
    decreases steps
  {
    if steps == 0 || a !in hooks then a else Landing(hooks, hooks[a], steps - 1)
  }

  lemma {:induction false} LandingMore(hooks: Hooks, a: nat, n: nat, m: nat)
    requires n <= m && Landing(hooks, a, n) !in hooks
    ensures Landing(hooks, a, m) == Landing(hooks, a, n)
    decreases n
  {
    if n > 0 && a in hooks {
      LandingMore(hooks, hooks[a], n - 1, m - 1);
    }
  }

  /** The programs of a session: symbols under their names, and no address in two programs. One program may have several
      names for an address. */
  ghost predicate Loaded(ps: seq<Table>) {
    && (forall i | 0 <= i < |ps| :: Named(ps[i]))
    && (forall i, j, f, g | 0 <= i < j < |ps| && In(ps[i], f) && In(ps[j], g) :: f.address != g.address)
  }

  /** The function g of program j is hooked behind its last version before, which is at a. */
  predicate HookedBy(ps: seq<Table>, n0: nat, refused: Refusals, j: nat, g: Symbol, a: nat) {
    n0 <= j < |ps| && In(ps[j], g) && AddressOf(LastVersion(ps, j, g)) == Some(a) && (a, g.address) !in refused
  }

  ghost predicate HasHook(ps: seq<Table>, n0: nat, refused: Refusals, a: nat) {
    exists j, g :: HookedBy(ps, n0, refused, j, g, a)
  }

  /** After n0 programs at the start and the others loaded as libraries: each hook is one that a library made, and every
      version that a library hooked has one. */
  ghost predicate Hooked(ps: seq<Table>, n0: nat, refused: Refusals, hooks: Hooks) {
    && (forall a | a in hooks :: exists j: nat, g: Symbol ::
      HookedBy(ps, n0, refused, j, g, a) && hooks[a] == g.address)
    && (forall a | HasHook(ps, n0, refused, a) :: a in hooks)
  }

  // ---- where calls land ----

  predicate Lands(ps: seq<Table>, hooks: Hooks, f: Symbol) { Newest(ps, f) == Some(Landing(hooks, f.address, |ps|)) }

  /** A call of any version of any function ends in the newest version. */
  ghost predicate AllLand(ps: seq<Table>, hooks: Hooks) {
    forall i, f | 0 <= i < |ps| && In(ps[i], f) :: Lands(ps, hooks, f)
  }

  /** One step: a version that jumps has the newest version of what it jumps to, and one that does not is the newest. */
  ghost predicate StepsRight(ps: seq<Table>, hooks: Hooks) {
    && (forall i, f, j, g | 0 <= i < |ps| && In(ps[i], f) && 0 <= j < |ps| && In(ps[j], g)
          && f.address in hooks && hooks[f.address] == g.address :: Newest(ps, f) == Newest(ps, g))
    && (forall i, f | 0 <= i < |ps| && In(ps[i], f) && f.address !in hooks :: Newest(ps, f) == Some(f.address))
  }

  lemma LoadedNamed(ps: seq<Table>, n: nat)
    requires Loaded(ps) && n <= |ps|
    ensures forall k | 0 <= k < n :: Named(ps[k])
  {
  }

  lemma SameProgram(ps: seq<Table>, i: nat, j: nat, f: Symbol, g: Symbol)
    requires Loaded(ps) && i < |ps| && j < |ps| && In(ps[i], f) && In(ps[j], g) && f.address == g.address
    ensures i == j
  {
  }

  lemma Hooker(ps: seq<Table>, n0: nat, refused: Refusals, hooks: Hooks, a: nat) returns (j: nat, g: Symbol)
    requires Hooked(ps, n0, refused, hooks) && a in hooks
    ensures HookedBy(ps, n0, refused, j, g, a) && hooks[a] == g.address
  {
    hide HookedBy, HasHook;
    j, g :| HookedBy(ps, n0, refused, j, g, a) && hooks[a] == g.address;
  }

  /** What a version jumps to: a later function whose last version before was at that address. */
  lemma JumpTarget(ps: seq<Table>, n0: nat, refused: Refusals, hooks: Hooks, i: nat, f: Symbol)
    returns (j: nat, g: Symbol, v: Symbol)
    requires Loaded(ps) && Hooked(ps, n0, refused, hooks) && i < |ps| && In(ps[i], f) && f.address in hooks
    ensures i < j < |ps| && n0 <= j && In(ps[j], g) && hooks[f.address] == g.address
    ensures (f.address, g.address) !in refused
    ensures In(ps[i], v) && v.address == f.address && Find(ps[i], g.name, g.hash) == Some(v)
    ensures LastVersion(ps, j, g) == Some(v)
  {
    hide LastVersion, Find, In, Named, Loaded;
    j, g := Hooker(ps, n0, refused, hooks, f.address);
    LoadedNamed(ps, j);
    var k := WhereLast(ps, j, g);
    v := LastVersion(ps, j, g).value;
    SameProgram(ps, i, k, f, v);
  }

  /** A chain of hooks climbs through the programs. */
  lemma {:induction false} ShortChain(ps: seq<Table>, n0: nat, refused: Refusals, hooks: Hooks, i: nat, f: Symbol)
    requires Loaded(ps) && Hooked(ps, n0, refused, hooks) && i < |ps| && In(ps[i], f)
    ensures Landing(hooks, f.address, |ps| - i) !in hooks
    decreases |ps| - i
  {
    hide Loaded, Hooked, LastVersion, Find, In;
    if f.address in hooks {
      var j, g, _ := JumpTarget(ps, n0, refused, hooks, i, f);
      ShortChain(ps, n0, refused, hooks, j, g);
      LandingMore(hooks, g.address, |ps| - j, |ps| - i - 1);
    }
  }

  lemma FullChain(ps: seq<Table>, n0: nat, refused: Refusals, hooks: Hooks, i: nat, f: Symbol, steps: nat)
    requires Loaded(ps) && Hooked(ps, n0, refused, hooks) && i < |ps| && In(ps[i], f) && |ps| - i <= steps <= |ps|
    ensures Landing(hooks, f.address, steps) == Landing(hooks, f.address, |ps|)
  {
    hide Loaded, Hooked, LastVersion, Find, In;
    ShortChain(ps, n0, refused, hooks, i, f);
    LandingMore(hooks, f.address, |ps| - i, steps);
    LandingMore(hooks, f.address, |ps| - i, |ps|);
  }

  /** Following one hook does not change where a call ends. */
  lemma JumpOnce(ps: seq<Table>, n0: nat, refused: Refusals, hooks: Hooks, i: nat, f: Symbol)
    requires Loaded(ps) && Hooked(ps, n0, refused, hooks) && i < |ps| && In(ps[i], f) && f.address in hooks
    ensures Landing(hooks, f.address, |ps|) == Landing(hooks, hooks[f.address], |ps|)
  {
    hide Loaded, Hooked, LastVersion, Find, In;
    var j, g, _ := JumpTarget(ps, n0, refused, hooks, i, f);
    FullChain(ps, n0, refused, hooks, j, g, |ps| - 1);
  }

  lemma {:induction false} StepsLand(ps: seq<Table>, n0: nat, refused: Refusals, hooks: Hooks, i: nat, f: Symbol)
    requires Loaded(ps) && Hooked(ps, n0, refused, hooks) && StepsRight(ps, hooks) && i < |ps| && In(ps[i], f)
    ensures Lands(ps, hooks, f)
    decreases |ps| - i
  {
    hide Loaded, Hooked, Newest, Find, In, LastVersion;
    if f.address in hooks {
      var j, g, _ := JumpTarget(ps, n0, refused, hooks, i, f);
      StepsLand(ps, n0, refused, hooks, j, g);
      JumpOnce(ps, n0, refused, hooks, i, f);
    }
  }

  /** For any tables at all: every call lands in the newest version if and only if every single step is right. */
  lemma LandIffSteps(ps: seq<Table>, n0: nat, refused: Refusals, hooks: Hooks)
    requires Loaded(ps) && Hooked(ps, n0, refused, hooks)
    ensures AllLand(ps, hooks) <==> StepsRight(ps, hooks)
  {
    hide Loaded, Hooked, Newest, Find, In, LastVersion;
    if StepsRight(ps, hooks) {
      forall i, f | 0 <= i < |ps| && In(ps[i], f) ensures Lands(ps, hooks, f) {
        StepsLand(ps, n0, refused, hooks, i, f);
      }
    }
    if AllLand(ps, hooks) {
      forall i, f, j, g | 0 <= i < |ps| && In(ps[i], f) && 0 <= j < |ps| && In(ps[j], g)
                          && f.address in hooks && hooks[f.address] == g.address
        ensures Newest(ps, f) == Newest(ps, g)
      {
        JumpOnce(ps, n0, refused, hooks, i, f);
        assert Lands(ps, hooks, f) && Lands(ps, hooks, g);
      }
      forall i, f | 0 <= i < |ps| && In(ps[i], f) && f.address !in hooks ensures Newest(ps, f) == Some(f.address) {
        assert Lands(ps, hooks, f);
      }
    }
  }

  // ---- when a symbol's lookups agree with those of what they find ----

  /** The last version before a symbol has the symbol's newest version. */
  ghost predicate Consistent(ps: seq<Table>) {
    forall j, g | 0 <= j < |ps| && In(ps[j], g) && LastVersion(ps, j, g).Some? ::
      Newest(ps, LastVersion(ps, j, g).value) == Newest(ps, g)
  }

  /** Whether a symbol needs its hash depends on its name only. */
  predicate KindsByName(ps: seq<Table>, locals: set<string>) {
    forall i, name, k | 0 <= i < |ps| && name in ps[i] && 0 <= k < |ps[i][name]| ::
      ps[i][name][k].checkHash == (name in locals)
  }

  predicate SameFunction(f: Symbol, g: Symbol, locals: set<string>) {
    f.name == g.name && (f.name in locals ==> f.hash == g.hash)
  }

  lemma SameLookup(ps: seq<Table>, locals: set<string>, i: nat, f: Symbol, g: Symbol)
    requires KindsByName(ps, locals) && i < |ps| && SameFunction(f, g, locals)
    ensures Find(ps[i], f.name, f.hash) == Find(ps[i], g.name, g.hash)
  {
    if f.name in ps[i] && f.name !in locals && ps[i][f.name] != [] {
      assert !ps[i][f.name][0].checkHash;
    }
  }

  lemma {:induction false} SameLast(ps: seq<Table>, locals: set<string>, n: nat, f: Symbol, g: Symbol)
    requires KindsByName(ps, locals) && n <= |ps| && SameFunction(f, g, locals)
    ensures LastVersion(ps, n, f) == LastVersion(ps, n, g)
  {
    hide Find, KindsByName;
    if n > 0 {
      SameLookup(ps, locals, n - 1, f, g);
      SameLast(ps, locals, n - 1, f, g);
    }
  }

  lemma FoundIsSame(ps: seq<Table>, locals: set<string>, i: nat, g: Symbol)
    requires KindsByName(ps, locals) && i < |ps| && Named(ps[i]) && Find(ps[i], g.name, g.hash).Some?
    ensures In(ps[i], Find(ps[i], g.name, g.hash).value) && SameFunction(g, Find(ps[i], g.name, g.hash).value, locals)
  {
    FoundIsIn(ps[i], g);
    var v := Find(ps[i], g.name, g.hash).value;
    var k :| 0 <= k < |ps[i][g.name]| && ps[i][g.name][k] == v;
  }

  /** It is enough that names are local everywhere or global everywhere. */
  lemma KindsConsistent(ps: seq<Table>, locals: set<string>)
    requires Loaded(ps) && KindsByName(ps, locals)
    ensures Consistent(ps)
  {
    hide Find, In, Loaded, KindsByName, SameFunction, LastVersion, Named;
    forall j, g | 0 <= j < |ps| && In(ps[j], g) && LastVersion(ps, j, g).Some?
      ensures Newest(ps, LastVersion(ps, j, g).value) == Newest(ps, g)
    {
      LoadedNamed(ps, |ps|);
      var i := WhereLast(ps, j, g);
      FoundIsSame(ps, locals, i, g);
      SameLast(ps, locals, |ps|, g, LastVersion(ps, j, g).value);
    }
  }

  /** Names of one address have their newest versions at one address. */
  ghost predicate Agree(ps: seq<Table>) {
    forall i, f, g | 0 <= i < |ps| && In(ps[i], f) && In(ps[i], g) && f.address == g.address ::
      Newest(ps, f) == Newest(ps, g)
  }

  /** A version that is not the newest is hooked by some library. */
  ghost predicate Redirected(ps: seq<Table>, n0: nat, refused: Refusals) {
    forall i, f | 0 <= i < |ps| && In(ps[i], f) ::
      Newest(ps, f) == Some(f.address) || HasHook(ps, n0, refused, f.address)
  }

  lemma LandNeeds(ps: seq<Table>, n0: nat, refused: Refusals, hooks: Hooks)
    requires Hooked(ps, n0, refused, hooks) && AllLand(ps, hooks)
    ensures Agree(ps) && Redirected(ps, n0, refused)
  {
    hide Newest, In, HookedBy;
    forall i, f, g | 0 <= i < |ps| && In(ps[i], f) && In(ps[i], g) && f.address == g.address
      ensures Newest(ps, f) == Newest(ps, g)
    {
      assert Lands(ps, hooks, f) && Lands(ps, hooks, g);
    }
    forall i, f | 0 <= i < |ps| && In(ps[i], f)
      ensures Newest(ps, f) == Some(f.address) || HasHook(ps, n0, refused, f.address)
    {
      assert Lands(ps, hooks, f);
    }
  }

  lemma StepsFollow(ps: seq<Table>, n0: nat, refused: Refusals, hooks: Hooks)
    requires Loaded(ps) && Hooked(ps, n0, refused, hooks) && Consistent(ps)
    requires Agree(ps) && Redirected(ps, n0, refused)
    ensures StepsRight(ps, hooks)
  {
    hide Newest, Find, In, LastVersion, Loaded, Consistent, HookedBy;
    forall i, f, j, g | 0 <= i < |ps| && In(ps[i], f) && 0 <= j < |ps| && In(ps[j], g)
                        && f.address in hooks && hooks[f.address] == g.address
      ensures Newest(ps, f) == Newest(ps, g)
    {
      JumpAgrees(ps, n0, refused, hooks, i, f, j, g);
    }
  }

  lemma JumpAgrees(ps: seq<Table>, n0: nat, refused: Refusals, hooks: Hooks, i: nat, f: Symbol, j: nat, g: Symbol)
    requires Loaded(ps) && Hooked(ps, n0, refused, hooks) && Consistent(ps) && Agree(ps)
    requires i < |ps| && In(ps[i], f) && j < |ps| && In(ps[j], g) && f.address in hooks && hooks[f.address] == g.address
    ensures Newest(ps, f) == Newest(ps, g)
  {
    hide Loaded, Hooked, LastVersion, Find, In, Newest;
    var k, h, v := JumpTarget(ps, n0, refused, hooks, i, f);
    SameProgram(ps, j, k, g, h);
    assert Newest(ps, f) == Newest(ps, v) == Newest(ps, h);
    assert Newest(ps, g) == Newest(ps, h);
  }

  /** Every call lands in the newest version if and only if names of one address agree about it and every
      version that is not the newest was hooked. */
  lemma LandIff(ps: seq<Table>, n0: nat, refused: Refusals, hooks: Hooks)
    requires Loaded(ps) && Hooked(ps, n0, refused, hooks) && Consistent(ps)
    ensures AllLand(ps, hooks) <==> Agree(ps) && Redirected(ps, n0, refused)
  {
    hide *;
    LandIffSteps(ps, n0, refused, hooks);
    if AllLand(ps, hooks) {
      LandNeeds(ps, n0, refused, hooks);
    }
    if Agree(ps) && Redirected(ps, n0, refused) {
      StepsFollow(ps, n0, refused, hooks);
    }
  }

  /** It is enough that the next versions agree, but aliases that were split may meet again later. */
  lemma {:induction false} NextAgree(ps: seq<Table>, i: nat, f: Symbol, g: Symbol)
    requires i < |ps| && In(ps[i], f) && In(ps[i], g) && f.address == g.address
    requires Loaded(ps) && Find(ps[i], f.name, f.hash) == Some(f) && Find(ps[i], g.name, g.hash) == Some(g)
    requires forall k | i < k < |ps| :: AddressOf(Find(ps[k], f.name, f.hash)) == AddressOf(Find(ps[k], g.name, g.hash))
    ensures Newest(ps, f) == Newest(ps, g)
  {
    SameAddressFrom(ps, i, |ps|, f, g);
  }

  lemma {:induction false} SameAddressFrom(ps: seq<Table>, i: nat, n: nat, f: Symbol, g: Symbol)
    requires i < n <= |ps| && f.address == g.address
    requires Find(ps[i], f.name, f.hash) == Some(f) && Find(ps[i], g.name, g.hash) == Some(g)
    requires forall k | i < k < n :: AddressOf(Find(ps[k], f.name, f.hash)) == AddressOf(Find(ps[k], g.name, g.hash))
    ensures AddressOf(LastVersion(ps, n, f)) == AddressOf(LastVersion(ps, n, g))
    decreases n
  {
    hide Find;
    if i < n - 1 {
      SameAddressFrom(ps, i, n - 1, f, g);
    }
  }

  // ---- one function ----

  /** Two symbols look up the same in every program. */
  predicate SameLookups(ps: seq<Table>, f: Symbol, g: Symbol) {
    forall m | 0 <= m < |ps| :: Find(ps[m], g.name, g.hash) == Find(ps[m], f.name, f.hash)
  }

  predicate OnlyName(t: Table, f: Symbol) {
    forall name, k | name in t && 0 <= k < |t[name]| && t[name][k].address == f.address :: t[name][k] == f
  }

  /** The versions of one function can be told from everything else: each looks up the same versions, is the
      only name of its address, and is found by no other symbol. Nothing is asked of other functions. */
  ghost predicate ToldApart(ps: seq<Table>, f: Symbol) {
    forall k | 0 <= k < |ps| && Find(ps[k], f.name, f.hash).Some? ::
      && SameLookups(ps, f, Find(ps[k], f.name, f.hash).value)
      && OnlyName(ps[k], Find(ps[k], f.name, f.hash).value)
      && forall j, g | 0 <= j < |ps| && In(ps[j], g) && Find(ps[k], g.name, g.hash) == Find(ps[k], f.name, f.hash) ::
           Find(ps[j], f.name, f.hash) == Some(g)
  }

  /** The function is in programs m and k and in none between. */
  predicate Consecutive(ps: seq<Table>, f: Symbol, m: nat, k: nat) {
    && m < k < |ps| && Find(ps[m], f.name, f.hash).Some? && Find(ps[k], f.name, f.hash).Some?
    && forall l | m < l < k :: Find(ps[l], f.name, f.hash).None?
  }

  /** The hook from version m to version k is not refused. */
  predicate Accepted(ps: seq<Table>, refused: Refusals, f: Symbol, m: nat, k: nat)
    requires Consecutive(ps, f, m, k)
  {
    (Find(ps[m], f.name, f.hash).value.address, Find(ps[k], f.name, f.hash).value.address) !in refused
  }

  /** From program i on, each next version came with a library whose hook was accepted. */
  ghost predicate Unbroken(ps: seq<Table>, n0: nat, refused: Refusals, i: nat, f: Symbol) {
    forall m: nat, k: nat | i <= m && Consecutive(ps, f, m, k) :: n0 <= k && Accepted(ps, refused, f, m, k)
  }

  lemma {:induction false} NextFound(ps: seq<Table>, j: nat, f: Symbol)
    requires j <= |ps|
    ensures NextVersion(ps, j, f).Some? <==> exists k | j <= k < |ps| :: Find(ps[k], f.name, f.hash).Some?
    decreases |ps| - j
  {
    hide Find;
    if j < |ps| {
      NextFound(ps, j + 1, f);
    }
  }

  lemma {:induction false} FirstNext(ps: seq<Table>, j: nat, f: Symbol) returns (k: nat)
    requires j <= |ps| && NextVersion(ps, j, f).Some?
    ensures j <= k < |ps| && Find(ps[k], f.name, f.hash).Some?
    ensures forall m | j <= m < k :: Find(ps[m], f.name, f.hash).None?
    decreases |ps| - j
  {
    hide Find;
    if Find(ps[j], f.name, f.hash).Some? {
      k := j;
    } else {
      k := FirstNext(ps, j + 1, f);
    }
  }

  lemma {:induction false} LastIs(ps: seq<Table>, i: nat, n: nat, f: Symbol)
    requires i < n <= |ps| && Find(ps[i], f.name, f.hash).Some?
    requires forall k | i < k < n :: Find(ps[k], f.name, f.hash).None?
    ensures LastVersion(ps, n, f) == Find(ps[i], f.name, f.hash)
  {
    hide Find;
    if i < n - 1 {
      LastIs(ps, i, n - 1, f);
    }
  }

  lemma HookAt(ps: seq<Table>, n0: nat, refused: Refusals, hooks: Hooks, j: nat, g: Symbol, a: nat)
    requires Hooked(ps, n0, refused, hooks) && HookedBy(ps, n0, refused, j, g, a)
    ensures a in hooks
  {
    hide HookedBy;
    assert HasHook(ps, n0, refused, a);
  }

  lemma NewestIsLater(ps: seq<Table>, i: nat, f: Symbol)
    requires Loaded(ps) && i < |ps| && In(ps[i], f)
    ensures NextVersion(ps, i + 1, f).Some? ==> Newest(ps, f) != Some(f.address)
    ensures NextVersion(ps, i + 1, f).None? && Find(ps[i], f.name, f.hash) == Some(f) ==>
      Newest(ps, f) == Some(f.address)
  {
    hide Find, Loaded, Named, LastVersion, NextVersion, In;
    HasVersion(ps, |ps|, i, f);
    LoadedNamed(ps, |ps|);
    NextFound(ps, i + 1, f);
    var k := WhereLast(ps, |ps|, f);
    if NextVersion(ps, i + 1, f).Some? {
      var v := LastVersion(ps, |ps|, f).value;
      if v.address == f.address {
        SameProgram(ps, i, k, f, v);
      }
    } else if Find(ps[i], f.name, f.hash) == Some(f) {
      LastIs(ps, i, |ps|, f);
    }
  }

  lemma ToldApartFacts(ps: seq<Table>, i: nat, f: Symbol)
    requires ToldApart(ps, f) && i < |ps| && In(ps[i], f)
    ensures Find(ps[i], f.name, f.hash) == Some(f) && OnlyName(ps[i], f)
  {
    hide OnlyName, SameLookups, Find;
    FindsSome(ps[i], f);
  }

  /** Every version of a function is told apart as the function is. */
  lemma VersionToldApart(ps: seq<Table>, f: Symbol, k: nat)
    requires Loaded(ps) && ToldApart(ps, f) && k < |ps| && Find(ps[k], f.name, f.hash).Some?
    ensures var g := Find(ps[k], f.name, f.hash).value;
            In(ps[k], g) && SameLookups(ps, f, g) && ToldApart(ps, g)
  {
    hide OnlyName, In, Loaded, Find, Named;
    LoadedNamed(ps, |ps|);
    FoundIsIn(ps[k], f);
  }

  /** A symbol whose last version is a version of the function is the next version of it. */
  lemma NextIs(ps: seq<Table>, i: nat, f: Symbol, j: nat, g: Symbol)
    requires Loaded(ps) && ToldApart(ps, f) && i < |ps| && In(ps[i], f)
    requires j < |ps| && In(ps[j], g) && LastVersion(ps, j, g) == Some(f)
    ensures Find(ps[j], f.name, f.hash) == Some(g) && Consecutive(ps, f, i, j)
  {
    hide OnlyName, In, Loaded, Find, Named, LastVersion;
    ToldApartFacts(ps, i, f);
    LoadedNamed(ps, |ps|);
    var k := WhereLast(ps, j, g);
    SameProgram(ps, i, k, f, f);
    assert Find(ps[j], f.name, f.hash) == Some(g);
    assert SameLookups(ps, f, g);
  }

  lemma SameAddressIs(t: Table, f: Symbol, g: Symbol)
    requires OnlyName(t, f) && In(t, g) && g.address == f.address
    ensures g == f
  {
    var k :| 0 <= k < |t[g.name]| && t[g.name][k] == g;
  }

  /** What a version jumps to, if anything, is the next version of the same function. */
  lemma JumpsToNext(ps: seq<Table>, n0: nat, refused: Refusals, hooks: Hooks, i: nat, f: Symbol) returns (j: nat)
    requires Loaded(ps) && Hooked(ps, n0, refused, hooks) && ToldApart(ps, f) && i < |ps| && In(ps[i], f)
    requires f.address in hooks
    ensures n0 <= j && Consecutive(ps, f, i, j) && Accepted(ps, refused, f, i, j)
    ensures hooks[f.address] == Find(ps[j], f.name, f.hash).value.address
  {
    hide OnlyName, In, Loaded, Find, Named, LastVersion, Hooked, ToldApart, Consecutive;
    var k, g, v := JumpTarget(ps, n0, refused, hooks, i, f);
    ToldApartFacts(ps, i, f);
    SameAddressIs(ps[i], f, v);
    NextIs(ps, i, f, k, g);
    j := k;
  }

  /** The last version before the next version. */
  lemma LastBefore(ps: seq<Table>, i: nat, f: Symbol, k: nat)
    requires Loaded(ps) && ToldApart(ps, f) && i < |ps| && In(ps[i], f) && Consecutive(ps, f, i, k)
    ensures LastVersion(ps, k, Find(ps[k], f.name, f.hash).value) == Some(f)
  {
    hide OnlyName, In, Loaded, Find, Named, LastVersion, ToldApart;
    ToldApartFacts(ps, i, f);
    VersionToldApart(ps, f, k);
    LastIs(ps, i, k, Find(ps[k], f.name, f.hash).value);
  }

  /** A version is hooked if and only if the next one came with a library whose hook was accepted. */
  lemma HookedIff(ps: seq<Table>, n0: nat, refused: Refusals, hooks: Hooks, i: nat, f: Symbol, k: nat)
    requires Loaded(ps) && Hooked(ps, n0, refused, hooks) && ToldApart(ps, f) && i < |ps| && In(ps[i], f)
    requires Consecutive(ps, f, i, k)
    ensures f.address in hooks <==> n0 <= k && Accepted(ps, refused, f, i, k)
    ensures f.address in hooks ==> hooks[f.address] == Find(ps[k], f.name, f.hash).value.address
  {
    hide OnlyName, In, Loaded, Find, Named, LastVersion, Hooked, ToldApart;
    ToldApartFacts(ps, i, f);
    if f.address in hooks {
      var j := JumpsToNext(ps, n0, refused, hooks, i, f);
      assert j == k;
    }
    if n0 <= k && Accepted(ps, refused, f, i, k) {
      VersionToldApart(ps, f, k);
      LastBefore(ps, i, f, k);
      HookAt(ps, n0, refused, hooks, k, Find(ps[k], f.name, f.hash).value, f.address);
    }
  }

  /** Breaking a chain into its first link and the rest. */
  lemma UnbrokenFrom(ps: seq<Table>, n0: nat, refused: Refusals, i: nat, f: Symbol, k: nat)
    requires Consecutive(ps, f, i, k)
    ensures Unbroken(ps, n0, refused, i, f) <==>
              n0 <= k && Accepted(ps, refused, f, i, k) && Unbroken(ps, n0, refused, k, f)
  {
    hide Find;
    if n0 <= k && Accepted(ps, refused, f, i, k) && Unbroken(ps, n0, refused, k, f) {
      forall m: nat, l: nat | i <= m && Consecutive(ps, f, m, l) ensures n0 <= l && Accepted(ps, refused, f, m, l) {
        if m < k {
          assert m == i && l == k;
        }
      }
    }
  }

  lemma SameUnbroken(ps: seq<Table>, n0: nat, refused: Refusals, i: nat, f: Symbol, g: Symbol)
    requires SameLookups(ps, f, g)
    ensures Unbroken(ps, n0, refused, i, f) <==> Unbroken(ps, n0, refused, i, g)
  {
    hide Find;
    assert forall m: nat, k: nat :: Consecutive(ps, f, m, k) <==> Consecutive(ps, g, m, k);
    assert forall m: nat, k: nat | Consecutive(ps, f, m, k) ::
        Accepted(ps, refused, f, m, k) <==> Accepted(ps, refused, g, m, k);
  }

  lemma {:induction false} SameLastVersion(ps: seq<Table>, n: nat, f: Symbol, g: Symbol)
    requires SameLookups(ps, f, g) && n <= |ps|
    ensures LastVersion(ps, n, f) == LastVersion(ps, n, g)
  {
    hide Find;
    if n > 0 {
      SameLastVersion(ps, n - 1, f, g);
    }
  }

  lemma NoneIsNewest(ps: seq<Table>, n0: nat, refused: Refusals, hooks: Hooks, i: nat, f: Symbol)
    requires Loaded(ps) && Hooked(ps, n0, refused, hooks) && ToldApart(ps, f) && i < |ps| && In(ps[i], f)
    requires NextVersion(ps, i + 1, f).None?
    ensures f.address !in hooks && Newest(ps, f) == Some(f.address) && Unbroken(ps, n0, refused, i, f)
  {
    hide OnlyName, In, Loaded, Find, Named, LastVersion, Hooked, ToldApart, Newest, NextVersion;
    ToldApartFacts(ps, i, f);
    NewestIsLater(ps, i, f);
    NextFound(ps, i + 1, f);
    if f.address in hooks {
      var j := JumpsToNext(ps, n0, refused, hooks, i, f);
    }
  }

  /** Function by function, for any other functions and any refused hooks: a call lands in the newest version if
      and only if each version after it came with a library whose hook was accepted. */
  lemma {:induction false} FunctionLandsIff(ps: seq<Table>, n0: nat, refused: Refusals, hooks: Hooks, i: nat, f: Symbol)
    requires Loaded(ps) && Hooked(ps, n0, refused, hooks) && ToldApart(ps, f) && i < |ps| && In(ps[i], f)
    ensures Lands(ps, hooks, f) <==> Unbroken(ps, n0, refused, i, f)
    decreases |ps| - i
  {
    hide OnlyName, In, Loaded, Find, Named, LastVersion, Hooked, ToldApart, NextVersion, Unbroken, SameLookups, Newest,
      Accepted;
    if NextVersion(ps, i + 1, f).None? {
      NoneIsNewest(ps, n0, refused, hooks, i, f);
    } else {
      ToldApartFacts(ps, i, f);
      var k := FirstNext(ps, i + 1, f);
      var g := Find(ps[k], f.name, f.hash).value;
      HookedIff(ps, n0, refused, hooks, i, f, k);
      UnbrokenFrom(ps, n0, refused, i, f, k);
      NewestIsLater(ps, i, f);
      if f.address in hooks {
        VersionToldApart(ps, f, k);
        FunctionLandsIff(ps, n0, refused, hooks, k, g);
        JumpOnce(ps, n0, refused, hooks, i, f);
        SameUnbroken(ps, n0, refused, k, f, g);
        NewestSame(ps, f, g);
      }
    }
  }

  lemma NewestSame(ps: seq<Table>, f: Symbol, g: Symbol)
    requires SameLookups(ps, f, g)
    ensures Newest(ps, f) == Newest(ps, g)
  {
    hide LastVersion, SameLookups;
    SameLastVersion(ps, |ps|, f, g);
  }

  /** No hook between versions of the function is refused. */
  ghost predicate NoneRefused(ps: seq<Table>, refused: Refusals, f: Symbol) {
    forall m: nat, k: nat | Consecutive(ps, f, m, k) :: Accepted(ps, refused, f, m, k)
  }

  /** Then what decides is the start: an older duplicate there is never hooked. */
  lemma StartDecides(ps: seq<Table>, n0: nat, refused: Refusals, i: nat, f: Symbol)
    requires n0 <= |ps| && i < |ps| && Find(ps[i], f.name, f.hash).Some? && NoneRefused(ps, refused, f)
    ensures Unbroken(ps, n0, refused, i, f) <==> i >= n0 || NextVersion(ps[..n0], i + 1, f).None?
  {
    hide Find, NextVersion, Accepted;
    if i < n0 {
      var start := ps[..n0];
      NextFound(start, i + 1, f);
      assert forall k | i < k < n0 :: start[k] == ps[k];
      if NextVersion(start, i + 1, f).Some? {
        var k := FirstNext(start, i + 1, f);
        assert Consecutive(ps, f, i, k);
      }
    }
  }

  /** When the names of a function are all local or all global, it is told apart if each version is found by its own
      lookup and is the only name of its address. */
  lemma TellsApart(ps: seq<Table>, f: Symbol, local: bool)
    requires Loaded(ps)
    requires forall i, k | 0 <= i < |ps| && f.name in ps[i] && 0 <= k < |ps[i][f.name]| ::
               ps[i][f.name][k].checkHash == local
    requires forall i, g | 0 <= i < |ps| && In(ps[i], g) && g.name == f.name && (local ==> g.hash == f.hash) ::
               Find(ps[i], g.name, g.hash) == Some(g) && OnlyName(ps[i], g)
    ensures ToldApart(ps, f)
  {
    hide OnlyName, Find, Named, SameLookups;
    LoadedNamed(ps, |ps|);
    forall k | 0 <= k < |ps| && Find(ps[k], f.name, f.hash).Some?
      ensures SameLookups(ps, f, Find(ps[k], f.name, f.hash).value)
      ensures OnlyName(ps[k], Find(ps[k], f.name, f.hash).value)
      ensures forall j, g | 0 <= j < |ps| && In(ps[j], g)
                            && Find(ps[k], g.name, g.hash) == Find(ps[k], f.name, f.hash) ::
                Find(ps[j], f.name, f.hash) == Some(g)
    {
      FoundIsIn(ps[k], f);
      var v := Find(ps[k], f.name, f.hash).value;
      KindOf(ps[k], v, local);
      KindLookups(ps, f, v, local);
      forall j, g | 0 <= j < |ps| && In(ps[j], g) && Find(ps[k], g.name, g.hash) == Find(ps[k], f.name, f.hash)
        ensures Find(ps[j], f.name, f.hash) == Some(g)
      {
        FoundIsIn(ps[k], g);
        KindLookups(ps, f, g, local);
        assert SameLookups(ps, f, g);
        LookupAt(ps, f, g, j);
      }
    }
  }

  lemma LookupAt(ps: seq<Table>, f: Symbol, g: Symbol, j: nat)
    requires SameLookups(ps, f, g) && j < |ps|
    ensures Find(ps[j], g.name, g.hash) == Find(ps[j], f.name, f.hash)
  {
  }

  lemma KindOf(t: Table, g: Symbol, local: bool)
    requires In(t, g) && forall k | 0 <= k < |t[g.name]| :: t[g.name][k].checkHash == local
    ensures g.checkHash == local
  {
  }

  lemma KindLookups(ps: seq<Table>, f: Symbol, g: Symbol, local: bool)
    requires f.name == g.name && (local ==> f.hash == g.hash)
    requires forall i, k | 0 <= i < |ps| && f.name in ps[i] && 0 <= k < |ps[i][f.name]| ::
               ps[i][f.name][k].checkHash == local
    ensures SameLookups(ps, f, g)
  {
    forall m | 0 <= m < |ps| ensures Find(ps[m], g.name, g.hash) == Find(ps[m], f.name, f.hash) {
      if !local && f.name in ps[m] && ps[m][f.name] != [] {
        assert !ps[m][f.name][0].checkHash;
      }
    }
  }

  // ---- one reload ----

  /** The hooks after each listed function was hooked behind the last version loaded before it, unless that one
      has a hook already or the hook is refused. */
  function HookAll(ps: seq<Table>, refused: Refusals, hooks: Hooks, order: seq<Symbol>): Hooks {
    if order == [] then hooks
    else
      var g := order[|order| - 1];
      var h := HookAll(ps, refused, hooks, order[..|order| - 1]);
      var prev := LastVersion(ps, |ps|, g);
      if prev.Some? && prev.value.address !in h && (prev.value.address, g.address) !in refused then
        h[prev.value.address := g.address]
      else h
  }

  /** The function g is to be hooked behind a. */
  predicate Targets(ps: seq<Table>, refused: Refusals, g: Symbol, a: nat) {
    AddressOf(LastVersion(ps, |ps|, g)) == Some(a) && (a, g.address) !in refused
  }

  lemma {:induction false} HookAllFacts(ps: seq<Table>, refused: Refusals, hooks: Hooks, order: seq<Symbol>, a: nat)
    ensures var h := HookAll(ps, refused, hooks, order);
            && (a in hooks ==> a in h && h[a] == hooks[a])
            && (forall g | g in order && Targets(ps, refused, g, a) :: a in h)
            && (a in h && a !in hooks ==> exists g | g in order :: Targets(ps, refused, g, a) && h[a] == g.address)
  {
    if order != [] {
      hide LastVersion;
      var front, last := order[..|order| - 1], order[|order| - 1];
      assert order == front + [last];
      HookAllFacts(ps, refused, hooks, front, a);
      assert last in order;
    }
  }

  lemma LibraryHooks(ps: seq<Table>, q: Table, n0: nat, refused: Refusals, j: nat, g: Symbol, a: nat)
    requires n0 <= |ps|
    ensures HookedBy(ps + [q], n0, refused, j, g, a) <==>
              HookedBy(ps, n0, refused, j, g, a) || (j == |ps| && In(q, g) && Targets(ps, refused, g, a))
  {
    hide LastVersion, In;
    var more := ps + [q];
    if j <= |ps| {
      LastVersionFrame(ps, [q], j, g);
    }
    if j < |ps| {
      assert more[j] == ps[j];
    } else if j == |ps| {
      assert more[j] == q;
    }
  }

  ghost predicate Lists(order: seq<Symbol>, q: Table) { forall f :: f in order <==> In(q, f) }

  /** A reload makes exactly the hooks it should. */
  lemma ReloadHooks(ps: seq<Table>, q: Table, n0: nat, refused: Refusals, hooks: Hooks, order: seq<Symbol>)
    requires n0 <= |ps| && Hooked(ps, n0, refused, hooks) && Lists(order, q)
    ensures Hooked(ps + [q], n0, refused, HookAll(ps, refused, hooks, order))
  {
    hide LastVersion, In, HookedBy, HookAll, Targets;
    var more, h := ps + [q], HookAll(ps, refused, hooks, order);
    forall a | a in h ensures exists j: nat, g: Symbol :: HookedBy(more, n0, refused, j, g, a) && h[a] == g.address {
      HookAllFacts(ps, refused, hooks, order, a);
      if a in hooks {
        var j, g := Hooker(ps, n0, refused, hooks, a);
        LibraryHooks(ps, q, n0, refused, j, g, a);
      } else {
        var g :| g in order && Targets(ps, refused, g, a) && h[a] == g.address;
        LibraryHooks(ps, q, n0, refused, |ps|, g, a);
      }
    }
    forall a | HasHook(more, n0, refused, a) ensures a in h {
      var j, g :| HookedBy(more, n0, refused, j, g, a);
      LibraryHooks(ps, q, n0, refused, j, g, a);
      HookAllFacts(ps, refused, hooks, order, a);
      if HookedBy(ps, n0, refused, j, g, a) {
        HookAt(ps, n0, refused, hooks, j, g, a);
      }
    }
  }

  lemma LoadedBefore(ps: seq<Table>, more: seq<Table>)
    requires Loaded(ps + more)
    ensures Loaded(ps)
  {
    hide Named, In;
    assert forall i | 0 <= i < |ps| :: (ps + more)[i] == ps[i];
  }

  lemma NextInLibrary(ps: seq<Table>, q: Table, i: nat, v: Symbol, g: Symbol)
    requires Loaded(ps + [q]) && ToldApart(ps + [q], g) && In(q, g)
    requires LastVersion(ps, |ps|, g) == Some(v) && i < |ps| && In(ps[i], v) && Find(ps[i], g.name, g.hash) == Some(v)
    requires forall k | i < k < |ps| :: Find(ps[k], g.name, g.hash).None?
    ensures var more := ps + [q];
            && In(more[i], v) && ToldApart(more, v) && Consecutive(more, v, i, |ps|)
            && Find(more[|ps|], v.name, v.hash) == Some(g)
  {
    hide OnlyName, In, Loaded, Find, Named, LastVersion, ToldApart;
    var more := ps + [q];
    assert more[|ps|] == q && forall k | 0 <= k < |ps| :: more[k] == ps[k];
    VersionToldApart(more, g, i);
    ToldApartFacts(more, |ps|, g);
  }

  /** For any other functions and any refused hooks: a function of a library that can be told apart is hooked behind its
      last version, if that hook is not refused. */
  lemma EveryHooked(ps: seq<Table>, q: Table, n0: nat, refused: Refusals, hooks: Hooks, order: seq<Symbol>, g: Symbol,
                    a: nat)
    requires n0 <= |ps| && Hooked(ps, n0, refused, hooks) && Lists(order, q) && Loaded(ps + [q])
    requires In(q, g) && ToldApart(ps + [q], g) && Targets(ps, refused, g, a)
    ensures a in HookAll(ps, refused, hooks, order) && HookAll(ps, refused, hooks, order)[a] == g.address
  {
    hide LastVersion, In, HookedBy, HookAll, Hooked, Loaded, ToldApart, Consecutive, Lists, Find, Named;
    LoadedBefore(ps, [q]);
    LoadedNamed(ps, |ps|);
    var i := WhereLast(ps, |ps|, g);
    var v := LastVersion(ps, |ps|, g).value;
    NextInLibrary(ps, q, i, v, g);
    ToldApartFacts(ps + [q], i, v);
    ReloadHooks(ps, q, n0, refused, hooks, order);
    HookedIff(ps + [q], n0, refused, HookAll(ps, refused, hooks, order), i, v, |ps|);
  }

  // ---- the step as written, and whole sessions ----

  class Reloader {
    var programs: seq<Table>
    var hooks: Hooks
    const refused: Refusals
    /** How many programs were loaded at the start. */
    ghost const n0: nat

    ghost predicate Valid()
      reads this
    {
      Loaded(programs) && n0 <= |programs| && Hooked(programs, n0, refused, hooks)
    }

    /** The programs that are loaded at the start, whatever functions they share. */
    constructor (programs: seq<Table>, refused: Refusals)
      requires Loaded(programs)
      ensures Valid() && this.programs == programs && this.refused == refused && n0 == |programs| && hooks == map[]
    {
      this.programs, this.hooks, this.refused, this.n0 := programs, map[], refused, |programs|;
    }

    method FindLatest(g: Symbol) returns (r: Option<Symbol>)
      ensures r == LastVersion(programs, |programs|, g)
    {
      hide Find;
      for i := |programs| downto 0
        invariant LastVersion(programs, |programs|, g) == LastVersion(programs, i, g)
      {
        var found := FindSymbol(programs[i], g.name, g.hash);
        if found.Some? { return found; }
      }
      r := None;
    }

    /** The hooking library's own work: an address is hooked once. */
    method Hook(address: nat, target: nat) returns (ok: bool)
      modifies this`hooks
      ensures ok <==> address !in old(hooks) && (address, target) !in refused
      ensures hooks == if ok then old(hooks)[address := target] else old(hooks)
    {
      ok := address !in hooks && (address, target) !in refused;
      if ok {
        hooks := hooks[address := target];
      }
    }

    /** `order` is the order in which the functions of the new library are visited. */
    method HookFunctions(order: seq<Symbol>)
      modifies this`hooks
      ensures hooks == HookAll(programs, refused, old(hooks), order)
    {
      hide LastVersion;
      for k := 0 to |order|
        invariant hooks == HookAll(programs, refused, old(hooks), order[..k])
      {
        assert order[..k + 1][..k] == order[..k];
        var previous := FindLatest(order[k]);
        if previous.Some? {
          var _ := Hook(previous.value.address, order[k].address);
        }
      }
      assert order[..|order|] == order;
    }

    method Reload(q: Table, order: seq<Symbol>)
      requires Valid() && Loaded(programs + [q]) && Lists(order, q)
      modifies this
      ensures Valid() && programs == old(programs) + [q]
      ensures forall a | a in old(hooks) :: a in hooks && hooks[a] == old(hooks)[a]
      ensures forall g, a | In(q, g) && ToldApart(programs, g) && Targets(old(programs), refused, g, a) ::
                a in hooks && hooks[a] == g.address
    {
      ReloadHooks(programs, q, n0, refused, hooks, order);
      forall a | a in hooks
        ensures a in HookAll(programs, refused, hooks, order) && HookAll(programs, refused, hooks, order)[a] == hooks[a]
      {
        HookAllFacts(programs, refused, hooks, order, a);
      }
      forall g, a | In(q, g) && ToldApart(programs + [q], g) && Targets(programs, refused, g, a)
        ensures a in HookAll(programs, refused, hooks, order)
        ensures HookAll(programs, refused, hooks, order)[a] == g.address
      {
        EveryHooked(programs, q, n0, refused, hooks, order, g, a);
      }
      hide *;
      HookFunctions(order);
      programs := programs + [q];
    }
  }

  function Tables(libraries: seq<(Table, seq<Symbol>)>): seq<Table> {
    if libraries == [] then [] else Tables(libraries[..|libraries| - 1]) + [libraries[|libraries| - 1].0]
  }

  lemma {:induction false} TablesBefore(libraries: seq<(Table, seq<Symbol>)>, k: nat)
    requires k < |libraries|
    ensures exists rest :: Tables(libraries) == Tables(libraries[..k]) + [libraries[k].0] + rest
  {
    if k == |libraries| - 1 {
      assert Tables(libraries) == Tables(libraries[..k]) + [libraries[k].0] + [];
    } else {
      var front := libraries[..|libraries| - 1];
      TablesBefore(front, k);
      assert front[..k] == libraries[..k];
      var rest :| Tables(front) == Tables(front[..k]) + [front[k].0] + rest;
      assert Tables(libraries) == Tables(libraries[..k]) + [libraries[k].0] + (rest + [libraries[|libraries| - 1].0]);
    }
  }

  lemma LoadedUpTo(programs: seq<Table>, libraries: seq<(Table, seq<Symbol>)>, k: nat)
    requires k < |libraries| && Loaded(programs + Tables(libraries))
    ensures Loaded(programs + Tables(libraries[..k]) + [libraries[k].0])
  {
    hide Loaded, Tables;
    TablesBefore(libraries, k);
    var rest :| Tables(libraries) == Tables(libraries[..k]) + [libraries[k].0] + rest;
    var ps := programs + Tables(libraries[..k]) + [libraries[k].0];
    assert programs + Tables(libraries) == ps + rest;
    LoadedBefore(ps, rest);
  }

  /** Every session, whatever is loaded at the start and afterwards and whatever hooks are refused. Calls of all
      versions of all functions end in the newest ones if and only if every step is right; where lookups are
      consistent, if and only if names of one address agree and every version that is not the newest was hooked.
      A call of one function that can be told apart ends in its newest version if and only if each later version
      came with a library and an accepted hook; if none of its own hooks is refused, if and only if it is no
      older duplicate of the start. */
  method Session(programs: seq<Table>, refused: Refusals, libraries: seq<(Table, seq<Symbol>)>)
    returns (ps: seq<Table>, hooks: Hooks)
    requires Loaded(programs + Tables(libraries))
    requires forall k | 0 <= k < |libraries| :: Lists(libraries[k].1, libraries[k].0)
    ensures ps == programs + Tables(libraries)
    ensures AllLand(ps, hooks) <==> StepsRight(ps, hooks)
    ensures Consistent(ps) ==> (AllLand(ps, hooks) <==> Agree(ps) && Redirected(ps, |programs|, refused))
    ensures forall i, f | 0 <= i < |ps| && In(ps[i], f) && ToldApart(ps, f) ::
              Lands(ps, hooks, f) <==> Unbroken(ps, |programs|, refused, i, f)
    ensures forall i, f | 0 <= i < |ps| && In(ps[i], f) && ToldApart(ps, f) && NoneRefused(ps, refused, f) ::
              Lands(ps, hooks, f) <==> i >= |programs| || NextVersion(ps[..|programs|], i + 1, f).None?
  {
    hide Loaded, Hooked, LastVersion, NextVersion, In, Lists, AllLand, StepsRight, Agree, Redirected,
      Consistent, Lands, Tables, ToldApart, Unbroken, NoneRefused;
    var r := LoadAll(programs, refused, libraries);
    ps, hooks := r.programs, r.hooks;
    SessionEnds(ps, |programs|, refused, hooks);
  }

  /** The libraries one after the other. */
  method LoadAll(programs: seq<Table>, refused: Refusals, libraries: seq<(Table, seq<Symbol>)>) returns (r: Reloader)
    requires Loaded(programs + Tables(libraries))
    requires forall k | 0 <= k < |libraries| :: Lists(libraries[k].1, libraries[k].0)
    ensures fresh(r) && r.Valid() && r.programs == programs + Tables(libraries) && r.n0 == |programs| &&
      r.refused == refused
  {
    hide Loaded, Hooked, LastVersion, In, Lists, ToldApart, Targets, Tables;
    LoadedBefore(programs, Tables(libraries));
    r := new Reloader(programs, refused);
    NoTables(libraries);
    for k := 0 to |libraries|
      invariant fresh(r) && r.Valid() && r.n0 == |programs| && r.refused == refused
      invariant r.programs == programs + Tables(libraries[..k])
    {
      LoadedUpTo(programs, libraries, k);
      r.Reload(libraries[k].0, libraries[k].1);
      OneTable(programs, libraries, k);
    }
    assert libraries[..|libraries|] == libraries;
  }

  lemma NoTables(libraries: seq<(Table, seq<Symbol>)>)
    ensures Tables(libraries[..0]) == []
  {
  }

  lemma OneTable(programs: seq<Table>, libraries: seq<(Table, seq<Symbol>)>, k: nat)
    requires k < |libraries|
    ensures programs + Tables(libraries[..k]) + [libraries[k].0] == programs + Tables(libraries[..k + 1])
  {
    assert libraries[..k + 1][..k] == libraries[..k];
  }

  lemma SessionEnds(ps: seq<Table>, n0: nat, refused: Refusals, hooks: Hooks)
    requires Loaded(ps) && n0 <= |ps| && Hooked(ps, n0, refused, hooks)
    ensures AllLand(ps, hooks) <==> StepsRight(ps, hooks)
    ensures Consistent(ps) ==> (AllLand(ps, hooks) <==> Agree(ps) && Redirected(ps, n0, refused))
    ensures forall i, f | 0 <= i < |ps| && In(ps[i], f) && ToldApart(ps, f) ::
              Lands(ps, hooks, f) <==> Unbroken(ps, n0, refused, i, f)
    ensures forall i, f | 0 <= i < |ps| && In(ps[i], f) && ToldApart(ps, f) && NoneRefused(ps, refused, f) ::
              Lands(ps, hooks, f) <==> i >= n0 || NextVersion(ps[..n0], i + 1, f).None?
  {
    hide *;
    LandIffSteps(ps, n0, refused, hooks);
    if Consistent(ps) {
      LandIff(ps, n0, refused, hooks);
    }
    forall i, f | 0 <= i < |ps| && In(ps[i], f) && ToldApart(ps, f)
      ensures Lands(ps, hooks, f) <==> Unbroken(ps, n0, refused, i, f)
    {
      FunctionLandsIff(ps, n0, refused, hooks, i, f);
    }
    forall i, f | 0 <= i < |ps| && In(ps[i], f) && ToldApart(ps, f) && NoneRefused(ps, refused, f)
      ensures Lands(ps, hooks, f) <==> i >= n0 || NextVersion(ps[..n0], i + 1, f).None?
    {
      FindsSome(ps[i], f);
      StartDecides(ps, n0, refused, i, f);
    }
  }

  // ---- inputs on which it fails ----

  function Global(name: string, address: nat): Symbol { Symbol(name, address, 0, false) }

  function Local(name: string, address: nat, hash: nat): Symbol { Symbol(name, address, hash, true) }

  /** Two names of one constructor, which the first library puts at two addresses and the second at one again. */
  const ALIASED: Table := map["C1" := [Global("C1", 100)], "C2" := [Global("C2", 100)]]
  const SPLIT: Table := map["C1" := [Global("C1", 200)], "C2" := [Global("C2", 300)]]
  const REJOINED: Table := map["C1" := [Global("C1", 400)], "C2" := [Global("C2", 400)]]

  lemma ConstructorTables()
    ensures forall n ::
      Find(ALIASED, "C1", n) == Some(Global("C1", 100)) && Find(ALIASED, "C2", n) == Some(Global("C2", 100))
    ensures forall n ::
      Find(SPLIT, "C1", n) == Some(Global("C1", 200)) && Find(SPLIT, "C2", n) == Some(Global("C2", 300))
    ensures forall n ::
      Find(REJOINED, "C1", n) == Some(Global("C1", 400)) && Find(REJOINED, "C2", n) == Some(Global("C2", 400))
    ensures forall f :: In(ALIASED, f) <==> f == Global("C1", 100) || f == Global("C2", 100)
    ensures forall f :: In(SPLIT, f) <==> f == Global("C1", 200) || f == Global("C2", 300)
    ensures forall f :: In(REJOINED, f) <==> f == Global("C1", 400) || f == Global("C2", 400)
  {
    assert "C1"[1] != "C2"[1];
  }

  lemma NamedConstructors()
    ensures Named(ALIASED) && Named(SPLIT) && Named(REJOINED)
  {
  }

  lemma SplitTables()
    ensures Loaded([ALIASED, SPLIT])
  {
    NamedConstructors();
    ConstructorTables();
    hide In, Named;
  }

  lemma SplitVersions()
    ensures Newest([ALIASED, SPLIT], Global("C1", 100)) == Some(200)
    ensures Newest([ALIASED, SPLIT], Global("C2", 100)) == Some(300)
    ensures In(ALIASED, Global("C1", 100)) && In(ALIASED, Global("C2", 100))
  {
    hide Find, In;
    ConstructorTables();
    assert [ALIASED, SPLIT][1] == SPLIT;
  }

  /** A reload that splits two names of one address leaves one of them at an old version, in any order of visiting. */
  lemma SplitAliases(hooks: Hooks)
    requires Hooked([ALIASED, SPLIT], 1, {}, hooks)
    ensures Loaded([ALIASED, SPLIT]) && !AllLand([ALIASED, SPLIT], hooks)
  {
    hide Find, In, Hooked, Loaded, Newest, AllLand, Redirected;
    var ps := [ALIASED, SPLIT];
    SplitTables();
    SplitVersions();
    assert ps[0] == ALIASED;
    if AllLand(ps, hooks) {
      LandNeeds(ps, 1, {}, hooks);
    }
  }

  lemma ThreeConstructors(f: Symbol)
    requires f.name == "C1" || f.name == "C2"
    ensures Newest([ALIASED, SPLIT, REJOINED], f) == Some(400)
  {
    hide Find, In;
    var ps := [ALIASED, SPLIT, REJOINED];
    ConstructorTables();
    assert ps[2] == REJOINED;
  }

  lemma ConstructorHooks()
    ensures var ps := [ALIASED, SPLIT, REJOINED];
            HasHook(ps, 1, {}, 100) && HasHook(ps, 1, {}, 200) && HasHook(ps, 1, {}, 300)
  {
    hide Find, In;
    var ps := [ALIASED, SPLIT, REJOINED];
    ConstructorTables();
    assert HookedBy(ps, 1, {}, 1, Global("C1", 200), 100);
    assert HookedBy(ps, 1, {}, 2, Global("C1", 400), 200);
    assert HookedBy(ps, 1, {}, 2, Global("C2", 400), 300);
  }

  lemma RejoinedTables()
    ensures Loaded([ALIASED, SPLIT, REJOINED])
  {
    NamedConstructors();
    ConstructorTables();
    hide In, Named;
  }

  lemma AllGlobal()
    ensures KindsByName([ALIASED, SPLIT, REJOINED], {})
  {
    hide Loaded, Find, In, Named;
  }

  lemma ConstructorsIn(i: nat, f: Symbol)
    requires i < 3 && In([ALIASED, SPLIT, REJOINED][i], f)
    ensures f.name == "C1" || f.name == "C2"
    ensures f.address in {100, 200, 300, 400}
  {
    hide In;
    ConstructorTables();
  }

  /** Names that were split and meet again are right all the same, although their next versions differ. */
  lemma RejoinedAliases(hooks: Hooks)
    requires Hooked([ALIASED, SPLIT, REJOINED], 1, {}, hooks)
    ensures AllLand([ALIASED, SPLIT, REJOINED], hooks)
  {
    var ps := [ALIASED, SPLIT, REJOINED];
    hide Find, In, Newest, HasHook, KindsByName, Consistent, Loaded, Hooked, AllLand;
    RejoinedTables();
    AllGlobal();
    ConstructorHooks();
    forall i, f | 0 <= i < |ps| && In(ps[i], f)
      ensures Newest(ps, f) == Some(400) && f.address in {100, 200, 300, 400}
    {
      ConstructorsIn(i, f);
      ThreeConstructors(f);
    }
    KindsConsistent(ps, {});
    LandIff(ps, 1, {}, hooks);
  }

  /** Two local functions of one name in files of one name: the lookup cannot tell them apart. */
  const CLASHING: Table := map["f" := [Local("f", 100, 7), Local("f", 101, 7)]]
  const FIXED: Table := map["f" := [Local("f", 200, 7)]]

  lemma ClashingTables()
    ensures Find(CLASHING, "f", 7) == Some(Local("f", 100, 7)) && Find(FIXED, "f", 7) == Some(Local("f", 200, 7))
    ensures forall f :: In(CLASHING, f) <==> f == Local("f", 100, 7) || f == Local("f", 101, 7)
    ensures forall f :: In(FIXED, f) <==> f == Local("f", 200, 7)
    ensures Named(CLASHING) && Named(FIXED) && KindsByName([CLASHING, FIXED], {"f"})
  {
  }

  /** The second of them is never hooked, so its calls stay where they are. */
  lemma HashClash(hooks: Hooks)
    requires Hooked([CLASHING, FIXED], 1, {}, hooks)
    ensures Loaded([CLASHING, FIXED]) && !AllLand([CLASHING, FIXED], hooks)
    ensures Newest([CLASHING, FIXED], Local("f", 101, 7)) == Some(200) && Landing(hooks, 101, 2) == 101
  {
    hide Find, In, Named, KindsByName;
    var ps := [CLASHING, FIXED];
    ClashingTables();
    assert In(ps[0], Local("f", 101, 7));
    forall a | a in hooks ensures a == 100 {
      var j, g := Hooker(ps, 1, {}, hooks, a);
    }
    assert !Lands(ps, hooks, Local("f", 101, 7));
  }

  /** One function in two programs of the start and in a library: the older one is never hooked. */
  lemma StartDuplicate(hooks: Hooks)
    requires var ps := [map["f" := [Global("f", 100)]], map["f" := [Global("f", 200)]], map["f" := [Global("f", 300)]]];
             Hooked(ps, 2, {}, hooks)
    ensures var ps := [map["f" := [Global("f", 100)]], map["f" := [Global("f", 200)]], map["f" := [Global("f", 300)]]];
            Newest(ps, Global("f", 100)) == Some(300) && Landing(hooks, 100, 3) == 100 && Landing(hooks, 200, 3) == 300
  {
    var ps := [map["f" := [Global("f", 100)]], map["f" := [Global("f", 200)]], map["f" := [Global("f", 300)]]];
    OneGlobal(100);
    OneGlobal(200);
    OneGlobal(300);
    hide Find, In;
    assert HookedBy(ps, 2, {}, 2, Global("f", 300), 200);
    HookAt(ps, 2, {}, hooks, 2, Global("f", 300), 200);
    forall a | a in hooks ensures a == 200 && hooks[a] == 300 {
      var j, g := Hooker(ps, 2, {}, hooks, a);
    }
  }

  lemma OneGlobal(address: nat)
    ensures var t := map["f" := [Global("f", address)]];
            && (forall n :: Find(t, "f", n) == Some(Global("f", address)))
            && forall f :: In(t, f) <==> f == Global("f", address)
  {
  }

  // ---- variables ----

  /** The variable a relocation is pointed at: that of the program loaded first among those that have it. */
  function FirstVersion(ps: seq<Table>, v: Symbol): Option<Symbol> {
    if ps == [] then None
    else if FirstVersion(ps[..|ps| - 1], v).Some? then FirstVersion(ps[..|ps| - 1], v)
    else Find(ps[|ps| - 1], v.name, v.hash)
  }

  /** Whatever is loaded later, every reload points its references to one and the same variable. */
  lemma {:induction false} OneHome(ps: seq<Table>, later: seq<Table>, v: Symbol)
    requires FirstVersion(ps, v).Some?
    ensures FirstVersion(ps + later, v) == FirstVersion(ps, v)
  {
    hide Find;
    if later == [] {
      assert ps + later == ps;
    } else {
      var all := ps + later;
      assert all[..|all| - 1] == ps + later[..|later| - 1];
      OneHome(ps, later[..|later| - 1], v);
    }
  }

  /** The search over the loaded programs, first to last. */
  method FindVariable(ps: seq<Table>, v: Symbol) returns (r: Option<Symbol>)
    ensures r == FirstVersion(ps, v)
  {
    hide Find;
    for i := 0 to |ps|
      invariant FirstVersion(ps[..i], v).None?
    {
      assert ps[..i + 1][..i] == ps[..i];
      var found := FindSymbol(ps[i], v.name, v.hash);
      if found.Some? {
        OneHome(ps[..i + 1], ps[i + 1..], v);
        assert ps[..i + 1] + ps[i + 1..] == ps;
        return found;
      }
    }
    assert ps[..|ps|] == ps;
    r := None;
  }
}
