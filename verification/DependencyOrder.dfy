/** The order in which shared libraries are loaded: stage by stage, each stage holding the pending
    modules all of whose dependencies are loaded.

    The recursion has no other exit than an empty list of pending modules; on a cyclic or dangling
    dependency it goes on until the interpreter's recursion limit, which is a parameter here. */
module DependencyOrder {

  type Deps = map<string, seq<string>>

  // ---------------------------------------------------------------- Stages

  ghost predicate Ready(deps: Deps, loaded: set<string>, m: string) {
    m in deps && forall d :: d in deps[m] ==> d in loaded
  }

  /** The modules loaded by the first k stages. */
  ghost function Loaded(deps: Deps, k: nat): set<string> {
    if k == 0 then {} else set m | m in deps.Keys && Ready(deps, Loaded(deps, k - 1), m)
  }

  /** The elements of s that are in `keep`, in the order of s. */
  ghost function Among(s: seq<string>, keep: set<string>): seq<string> {
    if s == [] then []
    else if s[0] in keep then [s[0]] + Among(s[1..], keep)
    else Among(s[1..], keep)
  }

  ghost function Stage(deps: Deps, order: seq<string>, k: nat): seq<string> {
    Among(order, Loaded(deps, k + 1) - Loaded(deps, k))
  }

  ghost function Pending(deps: Deps, order: seq<string>, k: nat): seq<string> {
    Among(order, deps.Keys - Loaded(deps, k))
  }

  /** The first k stages one after the other. */
  ghost function Flat(deps: Deps, order: seq<string>, k: nat): seq<string> {
    if k == 0 then [] else Flat(deps, order, k - 1) + Stage(deps, order, k - 1)
  }

  ghost predicate Distinct(s: seq<string>) {
    forall i, j :: 0 <= i < j < |s| ==> s[i] != s[j]
  }

  /** `order` lists each key once. */
  ghost predicate Lists(order: seq<string>, deps: Deps) {
    Distinct(order) && forall m :: m in order <==> m in deps.Keys
  }

  // ---------------------------------------------------------------- Chains of dependencies

  /** Each element but the last is a key with the next one among its dependencies. */
  ghost predicate Chain(deps: Deps, c: seq<string>) {
    c != [] && forall i :: 0 <= i < |c| - 1 ==> c[i] in deps && c[i + 1] in deps[c[i]]
  }

  ghost predicate ChainFrom(deps: Deps, m: string, c: seq<string>) {
    Chain(deps, c) && c[0] == m
  }

  /** Every chain from m has at most k elements and ends in a key. */
  ghost predicate ShortChains(deps: Deps, m: string, k: nat) {
    forall c :: ChainFrom(deps, m, c) ==> |c| <= k && c[|c| - 1] in deps
  }

  /** m leads to a cycle or to a dependency that is no key. */
  ghost predicate Doomed(deps: Deps, m: string) {
    exists c :: ChainFrom(deps, m, c) && (c[|c| - 1] !in deps || !Distinct(c))
  }

  lemma ChainCons(deps: Deps, m: string, d: string, c: seq<string>)
    requires m in deps && d in deps[m] && ChainFrom(deps, d, c)
    ensures ChainFrom(deps, m, [m] + c)
  {
  }

  lemma ChainTail(deps: Deps, c: seq<string>)
    requires Chain(deps, c) && |c| > 1
    ensures ChainFrom(deps, c[1], c[1..]) && c[0] in deps && c[1] in deps[c[0]]
  {
  }

  /** The stages know the chains: a module is loaded by stage k exactly when no chain from it has
      more than k elements or leaves the keys. */
  lemma {:induction false} LoadedIff(deps: Deps, m: string, k: nat)
    ensures m in Loaded(deps, k) <==> ShortChains(deps, m, k)
    decreases k
  {
    if k == 0 {
      assert ChainFrom(deps, m, [m]);
    } else {
      if m in Loaded(deps, k) {
        forall c | ChainFrom(deps, m, c) ensures |c| <= k && c[|c| - 1] in deps {
          if |c| > 1 {
            ChainTail(deps, c);
            LoadedIff(deps, c[1], k - 1);
          }
        }
      }
      if ShortChains(deps, m, k) {
        assert ChainFrom(deps, m, [m]);
        forall d | d in deps[m] ensures d in Loaded(deps, k - 1) {
          forall c | ChainFrom(deps, d, c) ensures |c| <= k - 1 && c[|c| - 1] in deps {
            ChainCons(deps, m, d, c);
            assert ([m] + c)[|c|] == c[|c| - 1];
          }
          LoadedIff(deps, d, k - 1);
        }
      }
    }
  }

  lemma LoadedGrows(deps: Deps, k: nat, n: nat)
    requires k <= n
    ensures Loaded(deps, k) <= Loaded(deps, n)
  {
  }

  /** A module's stage is the length of its longest dependency chain, counted in steps. */
  lemma StageIsLongestChain(deps: Deps, m: string, k: nat)
    ensures m in Loaded(deps, k + 1) - Loaded(deps, k) <==>
            ShortChains(deps, m, k + 1) && exists c :: ChainFrom(deps, m, c) && |c| == k + 1
  {
    LoadedIff(deps, m, k);
    LoadedIff(deps, m, k + 1);
  }

  /** No staging that puts every module after its dependencies can place a module earlier. */
  lemma StagesAreEarliest(deps: Deps, staging: map<string, nat>, m: string, k: nat)
    requires deps.Keys <= staging.Keys && m in deps
    requires forall a, d :: a in deps && d in deps[a] ==> d in deps && staging[d] < staging[a]
    requires m in Loaded(deps, k + 1) - Loaded(deps, k)
    ensures k <= staging[m]
  {
    LoadedBy(deps, staging, m);
    if staging[m] + 1 <= k { LoadedGrows(deps, staging[m] + 1, k); }
  }

  lemma {:induction false} LoadedBy(deps: Deps, staging: map<string, nat>, m: string)
    requires deps.Keys <= staging.Keys && m in deps
    requires forall a, d :: a in deps && d in deps[a] ==> d in deps && staging[d] < staging[a]
    ensures m in Loaded(deps, staging[m] + 1)
    decreases staging[m]
  {
    forall d | d in deps[m] ensures d in Loaded(deps, staging[m]) {
      LoadedBy(deps, staging, d);
      LoadedGrows(deps, staging[d] + 1, staging[m]);
    }
  }

  // ---------------------------------------------------------------- What is never loaded

  lemma {:induction false} ChainDescends(deps: Deps, c: seq<string>, k: nat, t: nat)
    requires Chain(deps, c) && c[0] in Loaded(deps, k) && t < |c|
    ensures t < k && c[t] in Loaded(deps, k - t)
    decreases t
  {
    LoadedIff(deps, c[0], k);
    if t > 0 {
      ChainTail(deps, c);
      ChainDescends(deps, c[1..], k - 1, t - 1);
    }
  }

  lemma ChainSlice(deps: Deps, c: seq<string>, i: nat)
    requires Chain(deps, c) && i < |c|
    ensures Chain(deps, c[i..])
  {
  }

  /** A module on a cycle is never loaded: it would have to be loaded before itself. */
  lemma {:induction false} CycleNeverLoads(deps: Deps, c: seq<string>, k: nat)
    requires Chain(deps, c) && |c| > 1 && c[0] == c[|c| - 1]
    ensures c[0] !in Loaded(deps, k)
    decreases k
  {
    if c[0] in Loaded(deps, k) {
      ChainDescends(deps, c, k, |c| - 1);
      CycleNeverLoads(deps, c, k - (|c| - 1));
    }
  }

  lemma {:induction false} Pigeonhole(s: seq<string>, keys: set<string>)
    requires Distinct(s) && forall i :: 0 <= i < |s| ==> s[i] in keys
    ensures |s| <= |keys|
  {
    if s != [] {
      var rest := s[1..];
      forall i | 0 <= i < |rest| ensures rest[i] in keys - {s[0]} {
        assert rest[i] == s[i + 1];
      }
      assert Distinct(rest);
      Pigeonhole(rest, keys - {s[0]});
    }
  }

  /** From as many stages on as there are modules, exactly the modules that lead to a cycle or to
      an absent dependency are left. */
  lemma StuckExactly(deps: Deps, m: string, n: nat)
    requires m in deps && n >= |deps.Keys|
    ensures m !in Loaded(deps, n) <==> Doomed(deps, m)
  {
    LoadedIff(deps, m, n);
    if m !in Loaded(deps, n) {
      var c :| ChainFrom(deps, m, c) && (|c| > n || c[|c| - 1] !in deps);
      if c[|c| - 1] in deps && Distinct(c) {
        forall i | 0 <= i < |c| ensures c[i] in deps.Keys {}
        Pigeonhole(c, deps.Keys);
      }
    }
    if Doomed(deps, m) && m in Loaded(deps, n) {
      var c :| ChainFrom(deps, m, c) && (c[|c| - 1] !in deps || !Distinct(c));
      var i, j :| 0 <= i < j < |c| && c[i] == c[j];
      ChainDescends(deps, c, n, i);
      ChainSlice(deps, c[..j + 1], i);
      CycleNeverLoads(deps, c[..j + 1][i..], n - i);
    }
  }

  /** The pending list never gets shorter than those modules. */
  lemma PendingStuck(deps: Deps, order: seq<string>, n: nat)
    requires Lists(order, deps) && n >= |deps.Keys|
    ensures forall m :: m in Pending(deps, order, n) <==> m in deps && Doomed(deps, m)
  {
    AmongMembers(order, deps.Keys - Loaded(deps, n));
    forall m | m in deps ensures m !in Loaded(deps, n) <==> Doomed(deps, m) {
      StuckExactly(deps, m, n);
    }
  }

  /** Acyclic, and every dependency of a key is a key. */
  ghost predicate WellFounded(deps: Deps) {
    && (forall m, d :: m in deps && d in deps[m] ==> d in deps)
    && (forall c :: Chain(deps, c) ==> Distinct(c))
  }

  // ---------------------------------------------------------------- Lists kept in order

  lemma {:induction false} AmongMembers(s: seq<string>, keep: set<string>)
    ensures forall m :: m in Among(s, keep) <==> m in s && m in keep
    ensures Distinct(s) ==> Distinct(Among(s, keep))
  {
    if s != [] {
      AmongMembers(s[1..], keep);
      assert Distinct(s) ==> Distinct(s[1..]) && s[0] !in s[1..];
      assert s == [s[0]] + s[1..];
    }
  }

  /** Two elements of the filtered list stand in the order they have in the list. */
  lemma {:induction false} AmongKeepsOrder(s: seq<string>, keep: set<string>, i: nat, j: nat)
    requires i < j < |Among(s, keep)|
    ensures exists p, q :: 0 <= p < q < |s| && s[p] == Among(s, keep)[i] && s[q] == Among(s, keep)[j]
  {
    var tail := Among(s[1..], keep);
    if s[0] in keep {
      AmongMembers(s[1..], keep);
      assert tail[j - 1] in s[1..];
      var q :| 0 <= q < |s[1..]| && s[1..][q] == tail[j - 1];
      if i == 0 {
        assert s[0] == Among(s, keep)[i] && s[q + 1] == Among(s, keep)[j];
      } else {
        AmongKeepsOrder(s[1..], keep, i - 1, j - 1);
        var p, q :| 0 <= p < q < |s[1..]| && s[1..][p] == tail[i - 1] && s[1..][q] == tail[j - 1];
        assert s[p + 1] == Among(s, keep)[i] && s[q + 1] == Among(s, keep)[j];
      }
    } else {
      AmongKeepsOrder(s[1..], keep, i, j);
      var p, q :| 0 <= p < q < |s[1..]| && s[1..][p] == tail[i] && s[1..][q] == tail[j];
      assert s[p + 1] == Among(s, keep)[i] && s[q + 1] == Among(s, keep)[j];
    }
  }

  /** Modules of one stage are loaded in the order in which they were listed. */
  lemma StageKeepsOrder(deps: Deps, order: seq<string>, k: nat, i: nat, j: nat)
    requires i < j < |Stage(deps, order, k)|
    ensures exists p, q :: 0 <= p < q < |order|
                           && order[p] == Stage(deps, order, k)[i] && order[q] == Stage(deps, order, k)[j]
  {
    AmongKeepsOrder(order, Loaded(deps, k + 1) - Loaded(deps, k), i, j);
  }

  lemma {:induction false} LoadedAreKeys(deps: Deps, k: nat)
    ensures Loaded(deps, k) <= deps.Keys
  {
  }

  lemma StageMembers(deps: Deps, order: seq<string>, k: nat)
    requires Lists(order, deps)
    ensures Distinct(Stage(deps, order, k))
    ensures forall m :: m in Stage(deps, order, k) <==> m in Loaded(deps, k + 1) && m !in Loaded(deps, k)
  {
    AmongMembers(order, Loaded(deps, k + 1) - Loaded(deps, k));
    LoadedAreKeys(deps, k + 1);
  }

  lemma DistinctConcat(a: seq<string>, b: seq<string>)
    requires Distinct(a) && Distinct(b) && forall m :: m in b ==> m !in a
    ensures Distinct(a + b)
  {
    forall i, j | 0 <= i < j < |a + b| ensures (a + b)[i] != (a + b)[j] {
      if i < |a| <= j { assert a[i] in a && b[j - |a|] in b; }
    }
  }

  /** The stages list every loaded module once. */
  lemma {:induction false} FlatMembers(deps: Deps, order: seq<string>, k: nat)
    requires Lists(order, deps)
    ensures Distinct(Flat(deps, order, k))
    ensures forall m :: m in Flat(deps, order, k) <==> m in Loaded(deps, k)
  {
    if k > 0 {
      hide Loaded, Stage, Distinct, Lists;
      FlatMembers(deps, order, k - 1);
      StageMembers(deps, order, k - 1);
      LoadedGrows(deps, k - 1, k);
      DistinctConcat(Flat(deps, order, k - 1), Stage(deps, order, k - 1));
    } else {
      assert Loaded(deps, 0) == {};
    }
  }

  lemma LoadableIff(deps: Deps, order: seq<string>, n: nat, m: string)
    requires Lists(order, deps) && m in deps
    ensures m in Loaded(deps, n + 1) <==> forall d :: d in deps[m] ==> d in Flat(deps, order, n)
  {
    FlatMembers(deps, order, n);
  }

  ghost predicate DependenciesFirst(deps: Deps, s: seq<string>) {
    forall i :: 0 <= i < |s| && s[i] in deps ==> forall d :: d in deps[s[i]] ==> d in s[..i]
  }

  /** And each after all its dependencies. */
  lemma {:induction false} FlatInOrder(deps: Deps, order: seq<string>, k: nat)
    requires Lists(order, deps)
    ensures DependenciesFirst(deps, Flat(deps, order, k))
  {
    if k > 0 {
      hide Loaded, Ready, Stage, Lists;
      FlatInOrder(deps, order, k - 1);
      StageMembers(deps, order, k - 1);
      var head, stage := Flat(deps, order, k - 1), Stage(deps, order, k - 1);
      var all := head + stage;
      forall i | 0 <= i < |all| && all[i] in deps ensures forall d :: d in deps[all[i]] ==> d in all[..i] {
        if i < |head| {
          assert all[..i] == head[..i];
        } else {
          assert all[i] in stage;
          LoadableIff(deps, order, k - 1, all[i]);
          assert all[..i] == head + all[|head|..i];
        }
      }
    }
  }

  lemma PendingEmptyIff(deps: Deps, order: seq<string>, k: nat)
    requires Lists(order, deps)
    ensures Pending(deps, order, k) == [] <==> Loaded(deps, k) == deps.Keys
  {
    AmongMembers(order, deps.Keys - Loaded(deps, k));
    if Pending(deps, order, k) == [] {
      forall m | m in deps.Keys ensures m in Loaded(deps, k) {
        assert m !in Pending(deps, order, k);
      }
    } else {
      assert Pending(deps, order, k)[0] in Pending(deps, order, k);
    }
  }

  /** Some number of stages loads everything exactly when no dependency is cyclic or absent; as
      many stages as there are modules are then enough. */
  lemma FinishesIff(deps: Deps, order: seq<string>)
    requires Lists(order, deps)
    ensures (exists k :: Pending(deps, order, k) == []) <==> WellFounded(deps)
    ensures WellFounded(deps) ==> Pending(deps, order, |deps.Keys|) == []
  {
    var n := |deps.Keys|;
    if WellFounded(deps) {
      forall m | m in deps.Keys ensures m in Loaded(deps, n) {
        if Doomed(deps, m) {
          var c :| ChainFrom(deps, m, c) && (c[|c| - 1] !in deps || !Distinct(c));
          LastIsKey(deps, c);
        }
        StuckExactly(deps, m, n);
      }
      PendingEmptyIff(deps, order, n);
    }
    if k: nat :| Pending(deps, order, k) == [] {
      PendingEmptyIff(deps, order, k);
      forall m, d | m in deps && d in deps[m] ensures d in deps {
        LoadedIff(deps, m, k);
        ChainCons(deps, m, d, [d]);
      }
      forall c | Chain(deps, c) ensures Distinct(c) {
        LoadedGrows(deps, k, k + n);
        if |c| > 1 { StuckExactly(deps, c[0], k + n); }
      }
    }
  }

  lemma LastIsKey(deps: Deps, c: seq<string>)
    requires Chain(deps, c) && c[0] in deps && WellFounded(deps)
    ensures c[|c| - 1] in deps && Distinct(c)
  {
    if |c| > 1 { assert c[|c| - 2 + 1] in deps[c[|c| - 2]]; }
  }

  // ---------------------------------------------------------------- The recursion

  function RemoveFirst(s: seq<string>, x: string): seq<string> {
    if s == [] then [] else if s[0] == x then s[1..] else [s[0]] + RemoveFirst(s[1..], x)
  }

  lemma {:induction false} RemoveFromAmong(s: seq<string>, keep: set<string>, x: string)
    requires Distinct(s)
    ensures RemoveFirst(Among(s, keep), x) == Among(s, keep - {x})
  {
    if s != [] {
      var tail := Among(s[1..], keep);
      assert Distinct(s[1..]);
      RemoveFromAmong(s[1..], keep, x);
      assert ([s[0]] + tail)[1..] == tail;
      if s[0] == x {
        assert x !in s[1..];
        AmongWithout(s[1..], keep, x);
      }
    }
  }

  lemma {:induction false} AmongWithout(s: seq<string>, keep: set<string>, x: string)
    requires x !in s
    ensures Among(s, keep - {x}) == Among(s, keep)
  {
    if s != [] {
      assert s[0] in s && forall m :: m in s[1..] ==> m in s;
      AmongWithout(s[1..], keep, x);
    }
  }

  class LoadOrder {
    const deps: Deps
    var pendingModules: seq<string>
    var currentModules: seq<string>
    var steps: map<nat, seq<string>>

    constructor (deps: Deps, keys: seq<string>)
      ensures this.deps == deps && pendingModules == keys && currentModules == [] && steps == map[]
    {
      this.deps, pendingModules, currentModules, steps := deps, keys, [], map[];
    }

    ghost predicate ListsAt(order: seq<string>, n: nat)
      reads this
    {
      Lists(order, deps) && pendingModules == Pending(deps, order, n) && currentModules == Flat(deps, order, n)
    }

    /** The state before the call that fills stage n. */
    ghost predicate Before(order: seq<string>, n: nat)
      reads this
    {
      && ListsAt(order, n)
      && (forall k: nat :: k in steps <==> k < n) && forall k: nat :: k < n ==> steps[k] == Stage(deps, order, k)
    }

    method ModulesThatCanBeLoaded(ghost order: seq<string>, ghost n: nat) returns (modules: seq<string>)
      requires ListsAt(order, n)
      ensures modules == Stage(deps, order, n)
    {
      hide Loaded, Flat, Stage, Ready, Pending, Among;
      modules := [];
      ReadyAmong(deps, order, n);
      PendingAreKeys(deps, order, n);
      ghost var keep := Loaded(deps, n + 1);
      AmongNothing(keep);
      for i := 0 to |pendingModules|
        invariant modules == Among(pendingModules[..i], keep)
      {
        var pending := pendingModules[i];
        assert pending in pendingModules;
        var canBeLoaded := true;
        for j := 0 to |deps[pending]|
          invariant canBeLoaded && forall k :: 0 <= k < j ==> deps[pending][k] in currentModules
        {
          if deps[pending][j] !in currentModules {
            assert deps[pending][j] in deps[pending];
            canBeLoaded := false;
            break;
          }
        }
        LoadableIff(deps, order, n, pending);
        AmongSnoc(pendingModules[..i], pending, keep);
        assert pendingModules[..i + 1] == pendingModules[..i] + [pending];
        if canBeLoaded { modules := modules + [pending]; }
      }
      assert pendingModules[..|pendingModules|] == pendingModules;
    }

    /** Moves the modules of stage n over, one by one. */
    method LoadModules(modules: seq<string>, stepNumber: nat, ghost order: seq<string>)
      requires ListsAt(order, stepNumber) && modules == Stage(deps, order, stepNumber)
      requires stepNumber in steps && steps[stepNumber] == []
      modifies this
      ensures ListsAt(order, stepNumber + 1) && steps == old(steps)[stepNumber := modules]
    {
      hide Loaded, Flat, Stage, Ready, Pending, Among;
      ghost var keep := deps.Keys - Loaded(deps, stepNumber);
      PendingIs(deps, order, stepNumber);
      for j := 0 to |modules|
        invariant pendingModules == Among(order, keep - Elements(modules[..j]))
        invariant currentModules == Flat(deps, order, stepNumber) + modules[..j]
        invariant steps == old(steps)[stepNumber := modules[..j]]
      {
        var m := modules[j];
        steps := steps[stepNumber := steps[stepNumber] + [m]];
        RemoveFromAmong(order, keep - Elements(modules[..j]), m);
        pendingModules := RemoveFirst(pendingModules, m);
        currentModules := currentModules + [m];
        assert modules[..j + 1] == modules[..j] + [m];
        assert keep - Elements(modules[..j]) - {m} == keep - Elements(modules[..j + 1]);
      }
      assert modules[..|modules|] == modules;
      StageDone(deps, order, stepNumber);
    }

    /** Fills one stage and recurses; `limit` is what is left of the recursion limit, and not
        finished is its error. */
    method DependencyOrder(ghost order: seq<string>, stepNumber: nat, limit: nat)
      returns (finished: bool, ghost calls: nat)
      requires Before(order, stepNumber)
      modifies this
      ensures Before(order, calls)
      ensures if finished then pendingModules == [] && calls <= stepNumber + limit
              else pendingModules != [] && calls == stepNumber + limit
      ensures forall k: nat :: stepNumber <= k < calls ==> Pending(deps, order, k) != []
      decreases limit
    {
      hide Loaded, Flat, Stage, Ready, Pending, Among, Lists;
      calls := stepNumber;
      if |pendingModules| == 0 { return true, calls; }
      if limit == 0 { return false, calls; }
      if stepNumber !in steps { steps := steps[stepNumber := []]; }
      var modules := ModulesThatCanBeLoaded(order, stepNumber);
      LoadModules(modules, stepNumber, order);
      finished, calls := DependencyOrder(order, stepNumber + 1, limit - 1);
    }
  }

  /** The whole sorting: the libraries in load order, or nothing when the recursion limit is hit.
      `keys` are the keys of the dependency dictionary in its order. */
  method SortToDependencies(deps: Deps, keys: seq<string>, limit: nat) returns (finished: bool, sorted: seq<string>)
    requires Lists(keys, deps)
    ensures finished <==> exists k: nat :: k <= limit && Pending(deps, keys, k) == []
    ensures finished ==> WellFounded(deps)
    ensures WellFounded(deps) && limit >= |deps.Keys| ==> finished
    ensures finished ==> Distinct(sorted) && (forall m :: m in sorted <==> m in deps) && DependenciesFirst(deps, sorted)
  {
    hide Loaded, Pending, Flat, Stage, WellFounded, DependenciesFirst, Distinct, Lists;
    var order := new LoadOrder(deps, keys);
    PendingAtStart(deps, keys);
    assert order.Before(keys, 0);
    ghost var calls;
    finished, calls := order.DependencyOrder(keys, 0, limit);
    FinishesIff(deps, keys);
    sorted := [];
    if finished {
      var k: nat := 0;
      while k in order.steps
        invariant order.Before(keys, calls) && k <= calls && sorted == Flat(deps, keys, k)
        decreases calls - k
      {
        StageDone(deps, keys, k);
        sorted := sorted + order.steps[k];
        k := k + 1;
      }
      PendingEmptyIff(deps, keys, calls);
      FlatMembers(deps, keys, calls);
      FlatInOrder(deps, keys, calls);
    } else {
      forall k: nat | k <= limit ensures Pending(deps, keys, k) != [] {
        if k == calls { assert order.pendingModules == Pending(deps, keys, k); }
      }
    }
  }

  lemma PendingAtStart(deps: Deps, order: seq<string>)
    requires Lists(order, deps)
    ensures Pending(deps, order, 0) == order && Flat(deps, order, 0) == []
  {
    AllAmong(order, deps.Keys);
    assert deps.Keys - Loaded(deps, 0) == deps.Keys;
  }

  lemma {:induction false} AllAmong(s: seq<string>, keep: set<string>)
    requires forall m :: m in s ==> m in keep
    ensures Among(s, keep) == s
  {
    if s != [] {
      assert s[0] in s && forall m :: m in s[1..] ==> m in s;
      AllAmong(s[1..], keep);
    }
  }

  lemma {:induction false} AmongSnoc(s: seq<string>, x: string, keep: set<string>)
    ensures Among(s + [x], keep) == Among(s, keep) + if x in keep then [x] else []
  {
    if s == [] {
      assert (s + [x])[1..] == [];
    } else {
      assert (s + [x])[1..] == s[1..] + [x];
      AmongSnoc(s[1..], x, keep);
    }
  }

  lemma {:induction false} AmongTwice(s: seq<string>, a: set<string>, b: set<string>)
    ensures Among(Among(s, a), b) == Among(s, a * b)
  {
    if s != [] {
      var tail := Among(s[1..], a);
      AmongTwice(s[1..], a, b);
      assert ([s[0]] + tail)[1..] == tail;
    }
  }

  lemma ReadyAmong(deps: Deps, order: seq<string>, n: nat)
    requires Lists(order, deps)
    ensures Among(Pending(deps, order, n), Loaded(deps, n + 1)) == Stage(deps, order, n)
  {
    AmongTwice(order, deps.Keys - Loaded(deps, n), Loaded(deps, n + 1));
    LoadedAreKeys(deps, n + 1);
    assert (deps.Keys - Loaded(deps, n)) * Loaded(deps, n + 1) == Loaded(deps, n + 1) - Loaded(deps, n);
  }

  ghost function Elements(s: seq<string>): set<string> {
    set m | m in s
  }

  lemma AmongNothing(keep: set<string>)
    ensures Among([], keep) == []
  {
  }

  lemma PendingAreKeys(deps: Deps, order: seq<string>, n: nat)
    ensures forall m :: m in Pending(deps, order, n) ==> m in deps
  {
    AmongMembers(order, deps.Keys - Loaded(deps, n));
  }

  lemma PendingIs(deps: Deps, order: seq<string>, n: nat)
    ensures Pending(deps, order, n) == Among(order, deps.Keys - Loaded(deps, n) - Elements([]))
  {
  }

  lemma StageDone(deps: Deps, order: seq<string>, n: nat)
    requires Lists(order, deps)
    ensures Among(order, deps.Keys - Loaded(deps, n) - Elements(Stage(deps, order, n))) == Pending(deps, order, n + 1)
    ensures Flat(deps, order, n) + Stage(deps, order, n) == Flat(deps, order, n + 1)
  {
    StageMembers(deps, order, n);
    LoadedGrows(deps, n, n + 1);
    assert deps.Keys - Loaded(deps, n) - Elements(Stage(deps, order, n)) == deps.Keys - Loaded(deps, n + 1);
  }
}
